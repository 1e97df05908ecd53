/** The code of kernel/thread/thread.c, kernel/thread/process.c and
    kernel/thread/schedule/segment.c on the kernel's own variables, proved to take the steps of
    module Kernel. */
module KernelCode {
  import opened Chunks
  import opened Lists
  import opened Segment
  import Links
  import opened RunLists
  import opened Scheduler
  import opened Kernel

  /** The length of wake_up_list in schedule(). */
  const WAKE_MAX := 10

  // ------------------------------------------------------------------ the loops of schedule

  function Less(task: Task): (r: Task) {
    task.(sleepTicks := (task.sleepTicks + TWO32 - 1) % TWO32)
  }

  /** The tasks after the sleepers in `done` have counted down. */
  function Counted(tasks: seq<Task>, done: seq<Tid>): (r: seq<Task>)
    ensures |r| == |tasks|
  {
    seq(|tasks|, t requires 0 <= t < |tasks| => if t in done then Less(tasks[t]) else tasks[t])
  }

  /** The tasks after the ones in `woken` were made ready as well. */
  function Readied(tasks: seq<Task>, done: seq<Tid>, woken: seq<Tid>): (r: seq<Task>)
    ensures |r| == |tasks|
  {
    seq(|tasks|, t requires 0 <= t < |tasks| =>
      if t in woken then Less(tasks[t]).(status := READY) else if t in done then Less(tasks[t]) else tasks[t])
  }

  lemma {:induction false} WithoutOther(x: Tid, l: seq<Tid>, w: seq<Tid>)
    requires x !in w
    ensures Without([x] + l, w) == [x] + Without(l, w)
    decreases |w|
  {
    if w != [] {
      assert ([x] + l)[1..] == l;
      WithoutOther(x, Remove(l, w[0]), w[1..]);
    }
  }

  /** Unlinking the wakers one by one leaves the others in order. */
  lemma {:induction false} WithoutWakers(tasks: seq<Task>, l: seq<Tid>)
    requires NoDup(l)
    ensures Without(l, Wakers(tasks, l)) == Stay(tasks, l)
  {
    hide Wakes;
    if l != [] {
      var rest := Wakers(tasks, l[1..]);
      WithoutWakers(tasks, l[1..]);
      assert l[0] !in l[1..];
      if l[0] < |tasks| && Wakes(tasks[l[0]]) {
        assert Wakers(tasks, l)[1..] == rest;
      } else {
        WakersFrom(tasks, l[1..], l[0]);
        WithoutOther(l[0], l[1..], rest);
        assert [l[0]] + l[1..] == l;
        assert Wakers(tasks, l) == rest;
      }
    }
  }

  lemma {:induction false} WakersMore(tasks: seq<Task>, l: seq<Tid>, t: Tid)
    ensures Wakers(tasks, l + [t]) == Wakers(tasks, l) + (if t < |tasks| && Wakes(tasks[t]) then [t] else [])
  {
    hide Wakes;
    if l == [] {
      assert (l + [t])[1..] == [];
    } else {
      WakersMore(tasks, l[1..], t);
      assert (l + [t])[1..] == l[1..] + [t];
    }
  }

  lemma {:induction false} WakersTake(tasks: seq<Task>, l: seq<Tid>, i: nat)
    requires i < |l|
    ensures Wakers(tasks, l[..i + 1]) ==
              Wakers(tasks, l[..i]) + (if l[i] < |tasks| && Wakes(tasks[l[i]]) then [l[i]] else [])
  {
    hide Wakes, Wakers;
    WakersMore(tasks, l[..i], l[i]);
    assert l[..i] + [l[i]] == l[..i + 1];
  }

  lemma {:induction false} WakersPrefix(tasks: seq<Task>, l: seq<Tid>, i: nat)
    requires i <= |l|
    ensures |Wakers(tasks, l[..i])| <= |Wakers(tasks, l)|
    decreases |l| - i
  {
    hide Wakes, Wakers;
    if i < |l| {
      WakersTake(tasks, l, i);
      WakersPrefix(tasks, l, i + 1);
    } else {
      assert l[..i] == l;
    }
  }

  /** Which sleepers wake depends on their counters alone. */
  lemma {:induction false} WakersSame(a: seq<Task>, b: seq<Task>, l: seq<Tid>)
    requires |a| == |b| && forall t: Tid :: t in l && t < |a| ==> a[t].sleepTicks == b[t].sleepTicks
    ensures Wakers(a, l) == Wakers(b, l)
  {
    if l != [] {
      WakersSame(a, b, l[1..]);
    }
  }

  /** All sleepers counted down, the wakers readied, moved to the front and unlinked: what
      WakeSleepers says. */
  lemma {:induction false} WakeDone(s: Sched)
    requires Pre(s)
    ensures var w := Wakers(s.tasks, s.sleep);
            WakeSleepers(s) == Sched(Readied(s.tasks, s.sleep, w), Reversed(w) + s.ready, Without(s.sleep, w), s.cur)
  {
    hide NoDup, Wakers, Stay, Reversed, Without;
    var w := Wakers(s.tasks, s.sleep);
    WithoutWakers(s.tasks, s.sleep);
    assert Readied(s.tasks, s.sleep, w) == WakeSleepers(s).tasks by {
      forall t | 0 <= t < |s.tasks|
        ensures Readied(s.tasks, s.sleep, w)[t] == WakeSleepers(s).tasks[t]
      {
        WakersMember(s.tasks, s.sleep, t);
      }
    }
  }

  lemma {:induction false} ReadiedNone(tasks: seq<Task>, done: seq<Tid>)
    ensures Readied(tasks, done, []) == Counted(tasks, done)
  {
  }

  // ------------------------------------------------------------------ the kernel

  /** The flag of a task says whether its links are set. */
  ghost predicate Tied(tasks: seq<Task>, linked: seq<bool>) {
    |linked| == |tasks| && forall t :: 0 <= t < |tasks| ==> (tasks[t].linked <==> linked[t])
  }

  /** The variables of the kernel: the tasks, ready_tasks and sleep_tasks as linked lists, the
      running task, all_tasks, the semaphores and the pid bitmap; `reaped` records who is gone. */
  class Machine {
    const lists: RunLists
    var tasks: seq<Task>
    var cur: Tid
    var all: seq<Tid>
    var sems: seq<Seg>
    var used: set<nat>
    var reaped: seq<Tid>

    ghost function Value(): (r: State)
      reads this, lists
    {
      State(Sched(tasks, lists.readyT, lists.sleepT, cur), all, sems, used, reaped)
    }

    /** Both lists are linked and sized right, and the tasks' flags tell the truth about their
        links. */
    ghost predicate Valid()
      reads this, lists, lists.mem, lists.ready, lists.sleep
    {
      lists.Valid() && Tied(tasks, lists.linked)
    }

    /** The idle thread runs, init is ready. */
    constructor (units: seq<nat>)
      ensures Valid() && Value() == Boot(units)
      ensures fresh(lists) && fresh(lists.mem) && fresh(lists.ready) && fresh(lists.sleep)
    {
      hide Links.Linked, RunLists.Valid;
      var l := new RunLists(2);
      l.PushReady(INIT, false);
      lists := l;
      tasks := [Task(RUNNING, false, 0, NO_PID, 1, 1, 0), Task(READY, true, INIT_PID, 0, 31, 31, 0)];
      cur, all, used, reaped := IDLE, [IDLE, INIT], {0, INIT_PID}, [];
      sems := seq(|units|, i requires 0 <= i < |units| => Seg(units[i], []));
    }

    /** The first loop of schedule(). */
    method CountDown() returns (wake: array<Tid>, n: nat)
      requires Valid() && Pre(Value().s) && |Wakers(tasks, lists.sleepT)| <= WAKE_MAX
      modifies this`tasks
      ensures fresh(wake) && wake.Length == WAKE_MAX && n <= WAKE_MAX && Valid()
      ensures wake[..n] == Wakers(old(tasks), lists.sleepT) && tasks == Counted(old(tasks), lists.sleepT)
    {
      hide Wakers, Pre, Counted, Wakes, RunLists.Valid;
      wake := new Tid[WAKE_MAX];
      n := 0;
      ghost var t0, sleep := tasks, lists.sleepT;
      CountedNone(t0);
      assert Wakers(t0, []) == [] by { WakersNone(t0); }
      assert sleep[..0] == [];
      SleepersExist(Value().s);
      ghost var i := 0;
      var p := lists.FirstAsleep();
      while p.Some?
        modifies this`tasks, wake
        invariant i <= |sleep| && p == (if i < |sleep| then Some(sleep[i]) else None)
        invariant n <= WAKE_MAX && tasks == Counted(t0, sleep[..i]) && wake[..n] == Wakers(t0, sleep[..i])
        decreases |sleep| - i
      {
        WakersTake(t0, sleep, i);
        WakersPrefix(t0, sleep, i + 1);
        CountedMore(t0, sleep, i);
        var t := p.value;
        tasks := tasks[t := tasks[t].(sleepTicks := (tasks[t].sleepTicks + TWO32 - 1) % TWO32)];
        if tasks[t].sleepTicks <= 0 {
          wake[n] := t;
          n := n + 1;
        }
        p := lists.NextAsleep(t, i);
        i := i + 1;
      }
      assert sleep[..|sleep|] == sleep;
      CountedTied(t0, sleep, lists.linked);
    }

    /** The second loop. */
    method WakeUp(wake: array<Tid>, n: nat, ghost was: Sched)
      requires Valid() && Pre(was) && was.ready == lists.readyT && was.sleep == lists.sleepT && was.cur == cur
      requires n <= wake.Length && wake[..n] == Wakers(was.tasks, was.sleep) && tasks == Counted(was.tasks, was.sleep)
      modifies this`tasks, lists, lists.mem, lists.ready, lists.sleep
      ensures Valid() && Value().s == WakeSleepers(was)
    {
      hide Wakers, Pre, Remove, Stay, Reversed, Without, Readied, Counted, WakeSleepers, RunLists.Valid;
      ghost var w, flags := wake[..n], lists.linked;
      WakeStart(was, w);
      WakersExist(was);
      for i := 0 to n
        modifies this`tasks, lists, lists.mem, lists.ready, lists.sleep
        invariant lists.Valid() && lists.linked == flags && tasks == Readied(was.tasks, was.sleep, w[..i])
        invariant lists.readyT == Reversed(w[..i]) + was.ready && lists.sleepT == Without(was.sleep, w[..i])
      {
        var t := wake[i];
        assert t == w[i];
        WakeNext(was, w, i);
        WakeTurn(was, w, i);
        WakeOne(t);
      }
      assert w[..n] == w;
      WakeDone(was);
      ReadiedTied(was.tasks, was.sleep, w, flags);
    }

    /** One turn of it. */
    method WakeOne(t: Tid)
      requires lists.Valid() && t < |tasks| && t in lists.sleepT && t !in lists.readyT && t !in Remove(lists.sleepT, t)
      modifies this`tasks, lists, lists.mem, lists.ready, lists.sleep
      ensures lists.Valid() && lists.linked == old(lists.linked) &&
              tasks == old(tasks)[t := old(tasks)[t].(status := READY)]
      ensures lists.readyT == [t] + old(lists.readyT) && lists.sleepT == Remove(old(lists.sleepT), t)
    {
      hide RunLists.Valid, Remove;
      SleeperLinked(lists, t);
      lists.RemoveSleep(t);
      lists.PushReady(t, true);
      tasks := tasks[t := tasks[t].(status := READY)];
    }

    /** schedule(). */
    method ScheduleNow()
      requires Valid() && Pre(Value().s) && |Wakers(tasks, lists.sleepT)| <= WAKE_MAX
      modifies this`tasks, this`cur, lists, lists.mem, lists.ready, lists.sleep
      ensures Valid() && Value().s == Schedule(old(Value().s)) && Inv(Value().s)
    {
      hide Wakers, Pre, Inv, WakeSleepers, Mid, RunLists.Valid;
      ghost var was := Value().s;
      ScheduleInv(was);
      WakeSleepersMid(was);
      var wake, n := CountDown();
      WakeUp(wake, n, was);
      Choose();
    }

    /** The rest of schedule(), with switch_to as the change of `cur`. */
    method Choose()
      requires Valid() && Mid(Value().s)
      modifies this`tasks, this`cur, lists, lists.mem, lists.ready, lists.sleep
      ensures Valid() && Value().s == Dispatch(old(Value().s))
    {
      hide RunLists.Valid, NoDup, Placed;
      ghost var s := Value().s;
      MidFacts(s);
      hide Mid;
      if tasks[cur].status.RUNNING? && tasks[cur].ticks > 0 {
        tasks := tasks[cur := tasks[cur].(ticks := tasks[cur].ticks - 1)];
        return;
      }
      var popped := lists.PopReady();
      if popped.None? {
        return;
      }
      var next := popped.value;
      tasks := tasks[next := tasks[next].(linked := false, ticks := tasks[next].priority)];
      if cur == next {
        return;
      }
      SwitchTo(next);
    }

    /** The running task is queued again if it can run, and `next` takes its place. */
    method SwitchTo(next: Tid)
      requires Valid() && cur < |tasks| && next < |tasks| && cur != next
      requires tasks[cur].status.Runnable() ==> cur !in lists.readyT && cur !in lists.sleepT
      modifies this`tasks, this`cur, lists, lists.mem, lists.ready, lists.sleep
      ensures Valid()
      ensures var back, c := old(tasks[cur].status.Runnable()), old(tasks[cur]);
              Value().s == Sched(old(tasks)[old(cur) := if back then c.(status := READY, linked := true) else c]
                                           [next := old(tasks)[next].(status := RUNNING)],
                                 if back then old(lists.readyT) + [old(cur)] else old(lists.readyT),
                                 old(lists.sleepT), next)
    {
      hide RunLists.Valid;
      if tasks[cur].status.RUNNING? {
        tasks := tasks[cur := tasks[cur].(status := READY)];
      }
      if tasks[cur].status.READY? {
        lists.PushReady(cur, false);
        tasks := tasks[cur := tasks[cur].(linked := true)];
      }
      tasks := tasks[next := tasks[next].(status := RUNNING)];
      cur := next;
    }

    /** _set_thread_status without the call of schedule(). `remove` is harmless when the task is
        ready or its links are cleared, and a push needs a task that is in no list. */
    method SetThreadStatus(t: Tid, status: Status, first: bool)
      requires Valid() && t < |tasks|
      requires !status.READY? ==> t in lists.readyT || !tasks[t].linked
      requires status.READY? && !tasks[t].status.Runnable() ==> t !in lists.readyT && t !in lists.sleepT
      modifies this`tasks, lists, lists.mem, lists.ready, lists.sleep
      ensures Valid() && Value().s == SetStatus(old(Value().s), t, status, first)
    {
      hide Remove, RunLists.Valid;
      if !tasks[t].status.READY? && !tasks[t].status.RUNNING? && status.READY? {
        lists.PushReady(t, first);
        tasks := tasks[t := tasks[t].(linked := true)];
      }
      if !status.READY? {
        NotAsleep(lists, t);
        lists.RemoveReady(t);
      }
      if status.SLEEP? {
        lists.PushSleep(t);
        tasks := tasks[t := tasks[t].(linked := true)];
      }
      tasks := tasks[t := tasks[t].(status := status)];
    }

    /** set_cur_thread_status with need_schedule. */
    method GiveUpProcessor(status: Status)
      requires Valid() && cur < |tasks| && Pre(SetStatus(Value().s, cur, status, false))
      requires !tasks[cur].linked && tasks[cur].status.Runnable()
      requires |Wakers(SetStatus(Value().s, cur, status, false).tasks,
                       SetStatus(Value().s, cur, status, false).sleep)| <= WAKE_MAX
      modifies this`tasks, this`cur, lists, lists.mem, lists.ready, lists.sleep
      ensures Valid() && Value().s == Leave(old(Value().s), status)
    {
      hide Wakers, Pre, Inv, SetStatus, Schedule, RunLists.Valid;
      SetThreadStatus(cur, status, false);
      ScheduleNow();
    }

    /** thread_yield. */
    method ThreadYield()
      requires Valid() && KernelInv(Value()) && Enabled(Value(), Yield) && |Wakers(tasks, lists.sleepT)| <= WAKE_MAX
      modifies this`tasks, this`cur, lists, lists.mem, lists.ready, lists.sleep
      ensures Valid() && Value() == Step(old(Value()), Yield)
    {
      hide KernelInv, Wakers, Leave, RunLists.Valid;
      LeaveReady(Value(), READY);
      GiveUpProcessor(READY);
    }

    /** thread_sleep, with the time already in ticks. */
    method ThreadSleep(ticks: nat)
      requires Valid() && KernelInv(Value()) && Enabled(Value(), Sleep(ticks))
      requires |Wakers(tasks, lists.sleepT)| + (if ticks % TWO32 == 1 then 1 else 0) <= WAKE_MAX
      modifies this`tasks, this`cur, lists, lists.mem, lists.ready, lists.sleep
      ensures Valid() && Value() == Step(old(Value()), Sleep(ticks))
    {
      hide KernelInv, Wakers, Leave, SetStatus, RunLists.Valid;
      SleepReady(Value(), ticks);
      tasks := tasks[cur := tasks[cur].(sleepTicks := ticks)];
      GiveUpProcessor(SLEEP);
    }

    /** pid2task. */
    method Pid2Task(pid: nat) returns (r: Option<Tid>)
      requires forall t: Tid :: t in all ==> t < |tasks|
      ensures r == FindPid(tasks, all, pid)
    {
      var i := 0;
      assert all[0..] == all;
      while i < |all|
        invariant i <= |all| && FindPid(tasks, all, pid) == FindPid(tasks, all[i..], pid)
      {
        assert all[i] in all;
        if tasks[all[i]].pid == pid {
          return Some(all[i]);
        }
        assert all[i..][1..] == all[i + 1..];
        i := i + 1;
      }
      r := None;
    }

    /** thread_child. */
    method ThreadChild(ppid: nat, hanging: bool) returns (r: Option<Tid>)
      ensures r == Child(tasks, all, ppid, hanging)
    {
      var i := 0;
      assert all[0..] == all;
      while i < |all|
        invariant i <= |all| && Child(tasks, all, ppid, hanging) == Child(tasks, all[i..], ppid, hanging)
      {
        if IsChild(tasks, all[i], ppid, hanging) {
          return Some(all[i]);
        }
        assert all[i..][1..] == all[i + 1..];
        i := i + 1;
      }
      r := None;
    }

    /** foreach over all_tasks with rechild2init. */
    method RechildAll(from: nat)
      requires forall t: Tid :: t in all ==> t < |tasks|
      modifies this`tasks
      ensures tasks == Rechild(old(tasks), all, from)
    {
      ghost var t0 := tasks;
      assert tasks == Rechild(t0, all[..0], from);
      for i := 0 to |all|
        modifies this`tasks
        invariant tasks == Rechild(t0, all[..i], from)
      {
        assert all[i] in all;
        RechildMore(t0, all, i, from);
        if tasks[all[i]].ppid == from {
          tasks := tasks[all[i] := tasks[all[i]].(ppid := INIT_PID)];
        }
      }
      assert all[..|all|] == all;
    }

    /** segment_wait. */
    method SegmentWait(i: nat)
      requires Valid() && KernelInv(Value()) && Enabled(Value(), SemWait(i)) &&
               |Wakers(tasks, lists.sleepT)| <= WAKE_MAX
      modifies this, lists, lists.mem, lists.ready, lists.sleep
      ensures Valid() && Value() == Step(old(Value()), SemWait(i))
    {
      hide KernelInv, Wakers, Leave, RunLists.Valid;
      if sems[i].count > 0 {
        sems := sems[i := sems[i].(count := sems[i].count - 1)];
      } else {
        LeaveReady(Value(), BLOCKED);
        sems := sems[i := sems[i].(waiters := sems[i].waiters + [cur])];
        GiveUpProcessor(BLOCKED);
      }
    }

    /** segment_wakeup with a NULL pid. */
    method SegmentWakeup(i: nat)
      requires Valid() && KernelInv(Value()) && Enabled(Value(), SemWakeup(i))
      modifies this`sems, this`tasks, lists, lists.mem, lists.ready, lists.sleep
      ensures Valid() && Value() == Step(old(Value()), SemWakeup(i))
    {
      hide SetStatus, KernelInv, RunLists.Valid;
      if sems[i].waiters != [] {
        var w := sems[i].waiters[0];
        WaiterOut(Value(), i);
        sems := sems[i := sems[i].(waiters := sems[i].waiters[1..])];
        SetThreadStatus(w, READY, true);
      } else {
        sems := sems[i := sems[i].(count := sems[i].count + 1)];
      }
    }

    /** alloc_pid. */
    method AllocPid() returns (pid: nat)
      requires FreePid(used, 0) < PIDS
      modifies this`used
      ensures pid == FreePid(old(used), 0) && used == old(used) + {pid}
    {
      pid := 0;
      while pid in used
        invariant pid < PIDS && FreePid(used, pid) == FreePid(used, 0)
        decreases PIDS - pid
      {
        pid := pid + 1;
      }
      used := used + {pid};
    }

    /** process_fork: the links of the child's tag are copies of the parent's, which are cleared. */
    method ProcessFork()
      requires Valid() && KernelInv(Value()) && Enabled(Value(), Fork)
      modifies this`tasks, this`all, this`used, lists, lists.mem, lists.ready, lists.sleep
      ensures Valid() && Value() == Step(old(Value()), Fork)
    {
      hide KernelInv, FreePid, RunLists.Valid;
      CurUnlinked(Value());
      NewTid(lists);
      var child := tasks[cur];
      child := child.(ppid := tasks[cur].pid);
      var pid := AllocPid();
      lists.AddNode(cur);
      lists.PushReady(|tasks|, false);
      child := child.(pid := pid, linked := true);
      all := all + [|tasks|];
      tasks := tasks + [child];
    }

    /** One round of the loop of process_wait; the result is the pid reaped, none if the caller
        has no children or blocks. */
    method ProcessWait() returns (pid: Option<nat>)
      requires Valid() && KernelInv(Value()) && Enabled(Value(), Wait) && |Wakers(tasks, lists.sleepT)| <= WAKE_MAX
      modifies this, lists, lists.mem, lists.ready, lists.sleep
      ensures Valid() && Value() == Step(old(Value()), Wait)
      ensures pid.Some? <==> HasChild(old(tasks), old(all), old(tasks[cur].pid), true)
      ensures pid.Some? ==> pid.value in old(used) && pid.value !in used
    {
      hide KernelInv, Wakers, Leave, Child, Reap, RunLists.Valid;
      var child := ThreadChild(tasks[cur].pid, true);
      if child.Some? {
        ReapedPid(Value(), child.value);
        pid := Some(tasks[child.value].pid);
        ThreadExit(child.value);
        return;
      }
      pid := None;
      child := ThreadChild(tasks[cur].pid, false);
      if child.None? {
        return;
      }
      LeaveReady(Value(), WAITING);
      GiveUpProcessor(WAITING);
    }

    /** thread_exit of another task, without its memory: both removals find its links cleared. */
    method ThreadExit(t: Tid)
      requires Valid() && t < |tasks| && t !in lists.readyT && !tasks[t].linked
      modifies this`tasks, this`all, this`used, this`reaped, lists, lists.mem, lists.ready, lists.sleep
      ensures Valid() && Value() == Reap(old(Value()), t)
    {
      hide Remove, RunLists.Valid;
      ghost var ready := lists.readyT;
      RemoveAbsent(ready, t);
      SetThreadStatus(t, DIED, false);
      lists.RemoveReady(t);
      all := Remove(all, t);
      used := used - {tasks[t].pid};
      reaped := reaped + [t];
    }

    /** process_exit, without its memory. */
    method ProcessExit()
      requires Valid() && KernelInv(Value()) && Enabled(Value(), Exit) && |Wakers(tasks, lists.sleepT)| <= WAKE_MAX
      modifies this`tasks, this`cur, lists, lists.mem, lists.ready, lists.sleep
      ensures Valid() && Value() == Step(old(Value()), Exit)
    {
      hide KernelInv, Wakers, Leave, FindPid, Rechild, SetStatus, RunLists.Valid;
      ghost var k := Value();
      AllExist(k);
      CurUnlinked(k);
      ExitEffect(k);
      ExitWakers(k);
      ExitLinks(k);
      ghost var p := ParentFound(k);
      RechildKeeps(tasks, all, tasks[cur].pid);
      RechildAll(tasks[cur].pid);
      SetOther(Value().s, p, cur);
      var parent := Pid2Task(tasks[cur].ppid);
      if tasks[parent.value].status.WAITING? {
        SetThreadStatus(parent.value, READY, false);
      }
      assert Value().s == Orphan(k);
      GiveUpProcessor(HANGING);
    }

    /** Any event, carried out by the code on its linked lists. */
    method Perform(e: Event)
      requires Valid() && KernelInv(Value()) && Enabled(Value(), e) && Due(Value(), e) <= WAKE_MAX
      modifies this, lists, lists.mem, lists.ready, lists.sleep
      ensures Valid() && Value() == Step(old(Value()), e) && KernelInv(Value())
    {
      hide KernelInv, Wakers, Step, Enabled, RunLists.Valid, Schedule, Due;
      StepInv(Value(), e);
      DueIs(Value(), e);
      match e {
        case Tick =>
          InvPre(Value());
          TickIs(Value());
          ScheduleNow();
        case Yield =>
          ThreadYield();
        case Sleep(ticks) =>
          ThreadSleep(ticks);
        case SemWait(i) =>
          SegmentWait(i);
        case SemWakeup(i) =>
          SegmentWakeup(i);
        case Fork =>
          ProcessFork();
        case Wait =>
          var _ := ProcessWait();
        case Exit =>
          ProcessExit();
      }
    }
  }

  /** How many sleepers the next schedule() wakes. */
  function Due(k: State, e: Event): (r: nat) {
    |Wakers(k.s.tasks, k.s.sleep)| + (if e.Sleep? && e.ticks % TWO32 == 1 then 1 else 0)
  }

  lemma {:induction false} DueIs(k: State, e: Event)
    ensures |Wakers(k.s.tasks, k.s.sleep)| <= Due(k, e)
    ensures e.Sleep? ==> Due(k, e) == |Wakers(k.s.tasks, k.s.sleep)| + (if e.ticks % TWO32 == 1 then 1 else 0)
  {
  }

  /** At every step of the run at most ten sleepers wake. */
  ghost predicate FewWake(k: State, es: seq<Event>)
    decreases |es|
  {
    es != [] ==>
      if Enabled(k, es[0]) then Due(k, es[0]) <= WAKE_MAX && FewWake(Step(k, es[0]), es[1..]) else FewWake(k, es[1..])
  }

  /** From boot through any events: in every state that the kernel reaches, both lists are linked
      in both directions, their sizes are right, and they hold what SchedulerSafe says. */
  method RunKernel(units: seq<nat>, es: seq<Event>) returns (m: Machine)
    requires FewWake(Boot(units), es)
    ensures m.Valid() && m.Value() == Reached(units, es)
  {
    hide KernelInv, Wired, Step, Boot;
    m := new Machine(units);
    BootInv(units);
    var i := 0;
    assert es[0..] == es;
    while i < |es|
      invariant i <= |es| && m.Valid() && KernelInv(m.Value()) && FewWake(m.Value(), es[i..])
      invariant Run(m.Value(), es[i..]) == Run(Boot(units), es)
      invariant fresh(m) && fresh(m.lists) && fresh(m.lists.mem) && fresh(m.lists.ready) && fresh(m.lists.sleep)
    {
      assert es[i..][0] == es[i] && es[i..][1..] == es[i + 1..];
      if CanHappen(m.cur, |m.tasks|, |m.sems|, m.used, es[i]) {
        m.Perform(es[i]);
      }
      i := i + 1;
    }
    assert es[i..] == [];
  }

  // ------------------------------------------------------------------ facts the methods need

  lemma {:induction false} WakersNone(tasks: seq<Task>)
    ensures Wakers(tasks, []) == []
  {
  }

  lemma {:induction false} WakeStart(was: Sched, w: seq<Tid>)
    ensures Readied(was.tasks, was.sleep, w[..0]) == Counted(was.tasks, was.sleep)
    ensures Reversed(w[..0]) + was.ready == was.ready && Without(was.sleep, w[..0]) == was.sleep
  {
    assert w[..0] == [];
    ReadiedNone(was.tasks, was.sleep);
  }

  lemma {:induction false} WakeTurn(was: Sched, w: seq<Tid>, i: nat)
    requires i < |w| && w[i] < |was.tasks| && w[i] in was.sleep
    ensures Reversed(w[..i + 1]) + was.ready == [w[i]] + (Reversed(w[..i]) + was.ready)
    ensures Without(was.sleep, w[..i + 1]) == Remove(Without(was.sleep, w[..i]), w[i])
    ensures var r := Readied(was.tasks, was.sleep, w[..i]);
            Readied(was.tasks, was.sleep, w[..i + 1]) == r[w[i] := r[w[i]].(status := READY)]
  {
    hide Reversed, Without, Remove, Readied;
    assert w[..i + 1] == w[..i] + [w[i]];
    RevMore(w[..i], w[i]);
    WithoutLast(was.sleep, w[..i], w[i]);
    ReadiedMore(was, w[..i], w[i]);
  }

  lemma {:induction false} SleepersExist(s: Sched)
    requires Pre(s)
    ensures NoDup(s.sleep) && forall i :: 0 <= i < |s.sleep| ==> s.sleep[i] < |s.tasks|
  {
    hide NoDup, Placed;
    forall i | 0 <= i < |s.sleep| ensures s.sleep[i] < |s.tasks| {
      assert s.sleep[i] in s.sleep;
    }
  }

  lemma {:induction false} WakersExist(s: Sched)
    requires Pre(s)
    ensures var w := Wakers(s.tasks, s.sleep);
            NoDup(w) && forall i :: 0 <= i < |w| ==> w[i] < |s.tasks| && w[i] in s.sleep
  {
    hide NoDup, Wakers;
    var w := Wakers(s.tasks, s.sleep);
    WakersNoDup(s.tasks, s.sleep);
    forall i | 0 <= i < |w| ensures w[i] < |s.tasks| && w[i] in s.sleep {
      WakersFrom(s.tasks, s.sleep, w[i]);
    }
  }

  lemma {:induction false} CountedNone(tasks: seq<Task>)
    ensures Counted(tasks, []) == tasks
  {
  }

  lemma {:induction false} CountedMore(tasks: seq<Task>, l: seq<Tid>, i: nat)
    requires i < |l| && NoDup(l) && l[i] < |tasks|
    ensures Counted(tasks, l[..i])[l[i]] == tasks[l[i]] && (Wakes(tasks[l[i]]) <==> Less(tasks[l[i]]).sleepTicks == 0)
    ensures Counted(tasks, l[..i + 1]) == Counted(tasks, l[..i])[l[i] := Less(tasks[l[i]])]
  {
    assert l[i] !in l[..i];
    assert l[..i + 1] == l[..i] + [l[i]];
  }

  lemma {:induction false} ReadiedMore(s: Sched, w: seq<Tid>, t: Tid)
    requires t < |s.tasks| && t in s.sleep
    ensures var r := Readied(s.tasks, s.sleep, w);
            Readied(s.tasks, s.sleep, w + [t]) == r[t := r[t].(status := READY)]
  {
  }

  lemma {:induction false} RechildMore(tasks: seq<Task>, all: seq<Tid>, i: nat, from: nat)
    requires i < |all| && all[i] < |tasks|
    ensures var r := Rechild(tasks, all[..i], from);
            Rechild(tasks, all[..i + 1], from) ==
            if r[all[i]].ppid == from then r[all[i] := r[all[i]].(ppid := INIT_PID)] else r
  {
    assert all[..i + 1] == all[..i] + [all[i]];
  }

  lemma {:induction false} CountedTied(tasks: seq<Task>, done: seq<Tid>, linked: seq<bool>)
    requires Tied(tasks, linked)
    ensures Tied(Counted(tasks, done), linked)
  {
  }

  lemma {:induction false} ReadiedTied(tasks: seq<Task>, done: seq<Tid>, woken: seq<Tid>, linked: seq<bool>)
    requires Tied(Counted(tasks, done), linked)
    ensures Tied(Readied(tasks, done, woken), linked)
  {
    forall t | 0 <= t < |tasks| ensures Readied(tasks, done, woken)[t].linked <==> linked[t] {
      assert Counted(tasks, done)[t].linked <==> linked[t];
    }
  }

  /** The next waker still sleeps and is not ready. */
  lemma {:induction false} WakeNext(was: Sched, w: seq<Tid>, i: nat)
    requires Pre(was) && w == Wakers(was.tasks, was.sleep) && i < |w|
    ensures w[i] in Without(was.sleep, w[..i]) && w[i] !in Reversed(w[..i]) + was.ready
    ensures w[i] !in Remove(Without(was.sleep, w[..i]), w[i])
  {
    hide Wakers, Placed, Without, Remove;
    WakersExist(was);
    assert NoDup(w[..i]) && w[i] !in w[..i];
    assert forall x: nat :: x in w[..i] ==> x in was.sleep;
    WithoutFacts(was.sleep, w[..i]);
    RevMember(w[..i], w[i]);
    RemoveFacts(Without(was.sleep, w[..i]), w[i]);
    assert w[i] in was.sleep;
  }

  /** A sleeper's links are set. */
  lemma {:induction false} SleeperLinked(l: RunLists, t: Tid)
    requires l.Valid() && (t in l.sleepT || t in l.readyT)
    ensures t < |l.linked| && l.linked[t]
  {
    InListLinked(l.mem.Value(), l.readyT, l.sleepT, l.linked, t);
  }

  /** A task that is ready or has cleared links does not sleep, and is gone once it is removed. */
  lemma {:induction false} NotAsleep(l: RunLists, t: Tid)
    requires l.Valid() && t < |l.linked| && (t in l.readyT || !l.linked[t])
    ensures t !in l.sleepT && t !in Remove(l.readyT, t)
  {
    hide Wired, Links.Linked;
    var m := l.mem.Value();
    if t in l.readyT {
      Disjoint(m, l.readyT, l.sleepT, l.linked, t);
      ReadyNoDup(m, l.readyT, l.sleepT, l.linked);
      RemoveFacts(l.readyT, t);
    } else {
      RemoveAbsent(l.readyT, t);
      if t in l.sleepT {
        InListLinked(m, l.readyT, l.sleepT, l.linked, t);
      }
    }
  }

  lemma {:induction false} ReadyNoDup(m: Links.Mem, ready: seq<Tid>, sleep: seq<Tid>, linked: seq<bool>)
    requires Wired(m, ready, sleep, linked)
    ensures NoDup(ready)
  {
    hide Links.Linked;
    var c := ChainOf(0, ready);
    Links.ChainNoDup(m, c);
    forall i, j | 0 <= i < j < |ready| ensures ready[i] != ready[j] {
      assert c[i + 1] == Node(ready[i]) && c[j + 1] == Node(ready[j]);
    }
  }

  lemma {:induction false} MidFacts(s: Sched)
    requires Mid(s)
    ensures s.cur < |s.tasks| && forall t: Tid :: t in s.ready ==> t < |s.tasks|
    ensures s.ready != [] ==> s.ready[0] in s.ready && (s.ready[0] != s.cur ==> s.cur !in s.ready)
    ensures s.cur in s.sleep ==> s.tasks[s.cur].status.SLEEP?
  {
    hide NoDup, Placed;
  }

  lemma {:induction false} CurUnlinked(k: State)
    requires KernelInv(k)
    ensures k.s.cur < |k.s.tasks| && !k.s.tasks[k.s.cur].linked && k.s.tasks[k.s.cur].status.Runnable()
    ensures k.s.cur !in k.s.ready && k.s.cur !in k.s.sleep
  {
    hide NoDup, SemInv, ProcInv;
    assert Placed(k.s, k.s.cur);
  }

  lemma {:induction false} NewTid(l: RunLists)
    requires l.Valid()
    ensures |l.linked| !in l.readyT && |l.linked| !in l.sleepT
  {
    hide Wired;
    if |l.linked| in l.readyT || |l.linked| in l.sleepT {
      InListLinked(l.mem.Value(), l.readyT, l.sleepT, l.linked, |l.linked|);
    }
  }

  lemma {:induction false} RechildKeeps(tasks: seq<Task>, all: seq<Tid>, from: nat)
    ensures forall t :: 0 <= t < |tasks| ==>
              Rechild(tasks, all, from)[t].status == tasks[t].status &&
              Rechild(tasks, all, from)[t].linked == tasks[t].linked
  {
  }

  lemma {:induction false} SetOther(s: Sched, p: Tid, c: Tid)
    requires p < |s.tasks| && c < |s.tasks| && p != c
    ensures SetStatus(s, p, READY, false).tasks[c] == s.tasks[c]
  {
    hide Remove;
  }

  lemma {:induction false} TickIs(k: State)
    requires Enabled(k, Tick)
    ensures Step(k, Tick) == k.(s := Schedule(k.s))
  {
    hide Schedule;
  }

  lemma {:induction false} InvPre(k: State)
    requires KernelInv(k)
    ensures Pre(k.s)
  {
    hide SemInv, ProcInv;
  }

  /** A waiter of a semaphore is blocked, hence in no list. */
  lemma {:induction false} WaiterOut(k: State, i: nat)
    requires KernelInv(k) && i < |k.sems| && k.sems[i].waiters != []
    ensures var w := k.sems[i].waiters[0];
            w < |k.s.tasks| && !k.s.tasks[w].status.Runnable() && w !in k.s.ready && w !in k.s.sleep
  {
    hide NoDup, ProcInv, Placed, InSome;
    var w := k.sems[i].waiters[0];
    assert SemOk(k.s.tasks, k.sems[i]) && w in k.sems[i].waiters;
  }

  /** A parent that waits is in no list. */
  lemma {:induction false} ExitLinks(k: State)
    requires KernelInv(k)
    ensures forall p :: 0 <= p < |k.s.tasks| && k.s.tasks[p].status.WAITING? ==> p !in k.s.ready && p !in k.s.sleep
  {
    hide NoDup, ProcInv, SemInv, Placed;
  }

  /** Whether an event can happen, as the code can tell. */
  predicate CanHappen(cur: Tid, tasks: nat, sems: nat, used: set<nat>, e: Event) {
    && cur < tasks
    && match e
       case Tick => true
       case Yield => cur != IDLE
       case Sleep(_) => cur != IDLE
       case SemWait(i) => i < sems && cur != IDLE
       case SemWakeup(i) => i < sems
       case Fork => cur != IDLE && FreePid(used, 0) < PIDS
       case Wait => cur != IDLE
       case Exit => cur != IDLE && cur != INIT
  }

  lemma {:induction false} AllExist(k: State)
    requires KernelInv(k)
    ensures forall t: Tid :: t in k.all ==> t < |k.s.tasks|
  {
    hide NoDup, Inv, SemInv, Pids, Tree, WaitOk, Roots;
  }

  /** Leaving the processor for BLOCKED, WAITING or READY wakes the same sleepers. */
  lemma {:induction false} LeaveReady(k: State, status: Status)
    requires KernelInv(k) && k.s.cur < |k.s.tasks| && (status.READY? || k.s.cur != IDLE)
    requires status.BLOCKED? || status.WAITING? || status.READY?
    ensures var r := SetStatus(k.s, k.s.cur, status, false);
            Pre(r) && Wakers(r.tasks, r.sleep) == Wakers(k.s.tasks, k.s.sleep)
    ensures !k.s.tasks[k.s.cur].linked && k.s.tasks[k.s.cur].status.Runnable()
  {
    hide Wakers, SemInv, ProcInv, Inv, Pre, Remove;
    CurUnlinked(k);
    GiveUp(k.s, status);
    WakersSame(k.s.tasks, SetStatus(k.s, k.s.cur, status, false).tasks, k.s.sleep);
  }

  lemma {:induction false} SleepReady(k: State, ticks: nat)
    requires KernelInv(k) && Enabled(k, Sleep(ticks))
    ensures var r := SetStatus(Slumber(k.s, ticks), k.s.cur, SLEEP, false);
            && Pre(r)
            && |Wakers(r.tasks, r.sleep)| <= |Wakers(k.s.tasks, k.s.sleep)| + (if ticks % TWO32 == 1 then 1 else 0)
    ensures !k.s.tasks[k.s.cur].linked && k.s.tasks[k.s.cur].status.Runnable()
  {
    hide Wakers, SemInv, ProcInv, NoDup, Remove;
    CurUnlinked(k);
    SlumberSched(k.s, ticks);
    GiveUp(Slumber(k.s, ticks), SLEEP);
    var r := SetStatus(Slumber(k.s, ticks), k.s.cur, SLEEP, false);
    WakersSame(k.s.tasks, r.tasks, k.s.sleep);
    WakersMore(r.tasks, k.s.sleep, k.s.cur);
  }

  lemma {:induction false} ExitWakers(k: State)
    requires k.s.cur < |k.s.tasks|
    ensures var r := SetStatus(Orphan(k), k.s.cur, HANGING, false);
            Wakers(r.tasks, r.sleep) == Wakers(k.s.tasks, k.s.sleep)
  {
    hide Wakers, Remove, FindPid;
    WakersSame(k.s.tasks, SetStatus(Orphan(k), k.s.cur, HANGING, false).tasks, k.s.sleep);
  }

  lemma {:induction false} ReapedPid(k: State, h: Tid)
    requires KernelInv(k) && h in k.all && h < |k.s.tasks| && k.s.tasks[h].status.HANGING?
    ensures k.s.tasks[h].pid in k.used && k.s.tasks[h].pid !in Reap(k, h).used && h !in k.s.ready &&
            !k.s.tasks[h].linked
  {
    hide NoDup, SemInv, Tree, WaitOk, Roots, Members;
    assert Placed(k.s, h);
  }
}
