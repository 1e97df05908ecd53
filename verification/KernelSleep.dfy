/** How long thread_sleep sleeps. The counter of a sleeper goes down at every schedule(), whoever
    calls it, and not only at the ticks of the timer. */
module KernelSleep {
  import opened Chunks
  import opened Lists
  import opened Segment
  import opened Scheduler
  import opened Kernel
  import opened KernelRuns

  // ------------------------------------------------------------------ the calls of schedule()

  /** Does the step call schedule()? */
  predicate Schedules(k: State, e: Event)
    requires Enabled(k, e)
  {
    match e
    case Tick => true
    case Yield => true
    case Sleep(_) => true
    case SemWait(i) => k.sems[i].count == 0
    case SemWakeup(_) => false
    case Fork => false
    case Wait =>
      var pid := k.s.tasks[k.s.cur].pid;
      Child(k.s.tasks, k.all, pid, true).None? && Child(k.s.tasks, k.all, pid, false).Some?
    case Exit => true
  }

  /** The scheduler's state when the step calls schedule(), or at its end if it does not. */
  function Asked(k: State, e: Event): (r: Sched)
    requires Enabled(k, e)
  {
    match e
    case Tick => k.s
    case Yield => SetStatus(k.s, k.s.cur, READY, false)
    case Sleep(ticks) => SetStatus(Slumber(k.s, ticks), k.s.cur, SLEEP, false)
    case SemWait(i) => if k.sems[i].count > 0 then k.s else SetStatus(k.s, k.s.cur, BLOCKED, false)
    case SemWakeup(i) => DoWakeup(k, i).s
    case Fork => DoFork(k).s
    case Wait => if Schedules(k, e) then SetStatus(k.s, k.s.cur, WAITING, false) else DoWait(k).s
    case Exit => SetStatus(Orphan(k), k.s.cur, HANGING, false)
  }

  lemma {:induction false} StepAsked(k: State, e: Event)
    requires Enabled(k, e)
    ensures Step(k, e).s == if Schedules(k, e) then Schedule(Asked(k, e)) else Asked(k, e)
  {
    hide Schedule, SetStatus, Child, FindPid, Rechild, FreePid, Reap, Spawn, Orphan;
  }

  lemma {:induction false} AskedPre(k: State, e: Event)
    requires KernelInv(k) && Enabled(k, e) && Schedules(k, e)
    ensures Pre(Asked(k, e))
  {
    hide SemInv, ProcInv, SetStatus, Child, Orphan, Pre;
    CurFacts(k.s);
    match e {
      case Tick =>
      case Yield => GiveUp(k.s, READY);
      case Sleep(ticks) =>
        SlumberSched(k.s, ticks);
        GiveUp(Slumber(k.s, ticks), SLEEP);
      case SemWait(_) => GiveUp(k.s, BLOCKED);
      case Wait => GiveUp(k.s, WAITING);
      case Exit => ExitEffect(k);
    }
  }

  /** Nothing that a step does before schedule() touches a sleeper. */
  ghost predicate SleeperKept(a: Sched, b: Sched, t: Tid) {
    t in b.sleep && t < |a.tasks| && t < |b.tasks| && b.tasks[t].sleepTicks == a.tasks[t].sleepTicks
  }

  lemma {:induction false} SetKeeps(s: Sched, x: Tid, status: Status, first: bool, t: Tid)
    requires t in s.sleep && t < |s.tasks| && x < |s.tasks|
    ensures SleeperKept(s, SetStatus(s, x, status, first), t)
  {
    hide Remove;
  }

  lemma {:induction false} AskedKeeps(k: State, e: Event, t: Tid)
    requires KernelInv(k) && Enabled(k, e) && t in k.s.sleep
    ensures SleeperKept(k.s, Asked(k, e), t)
  {
    hide SetStatus, Child, FindPid, FreePid, SemInv, ProcInv;
    SleeperThere(k, t);
    hide KernelInv;
    match e {
      case Tick =>
      case Yield => SetKeeps(k.s, k.s.cur, READY, false, t);
      case Sleep(ticks) => SetKeeps(Slumber(k.s, ticks), k.s.cur, SLEEP, false, t);
      case SemWait(_) => SetKeeps(k.s, k.s.cur, BLOCKED, false, t);
      case SemWakeup(i) =>
        if Woken(k.sems[i]).Some? && Woken(k.sems[i]).value < |k.s.tasks| {
          SetKeeps(k.s, Woken(k.sems[i]).value, READY, true, t);
        }
      case Fork =>
      case Wait =>
        SetKeeps(k.s, k.s.cur, WAITING, false, t);
        var h := Child(k.s.tasks, k.all, k.s.tasks[k.s.cur].pid, true);
        if h.Some? {
          SetKeeps(k.s, h.value, DIED, false, t);
        }
      case Exit => OrphanKeeps(k, t);
    }
  }

  lemma {:induction false} OrphanKeeps(k: State, t: Tid)
    requires k.s.cur < |k.s.tasks| && t < |k.s.tasks| && t in k.s.sleep
    ensures SleeperKept(k.s, SetStatus(Orphan(k), k.s.cur, HANGING, false), t)
  {
    hide SetStatus, FindPid;
    var s := k.s.(tasks := Rechild(k.s.tasks, k.all, k.s.tasks[k.s.cur].pid));
    var p := FindPid(s.tasks, k.all, s.tasks[s.cur].ppid);
    if p.Some? {
      SetKeeps(s, p.value, READY, false, t);
    }
    SetKeeps(Orphan(k), k.s.cur, HANGING, false, t);
  }

  lemma {:induction false} SleeperThere(k: State, t: Tid)
    requires KernelInv(k) && t in k.s.sleep
    ensures t < |k.s.tasks| && t != k.s.cur
  {
    hide SemInv, ProcInv, NoDup, Placed;
  }

  // ------------------------------------------------------------------ one schedule()

  lemma {:induction false} DispatchKeeps(s: Sched, t: Tid)
    requires Mid(s) && t < |s.tasks|
    ensures Dispatch(s).sleep == s.sleep && Dispatch(s).tasks[t].sleepTicks == s.tasks[t].sleepTicks
    ensures s.tasks[t].status.Runnable() ==> Dispatch(s).tasks[t].status.Runnable()
  {
    hide NoDup, Placed;
    if s.ready != [] {
      assert s.ready[0] in s.ready;
    }
  }

  /** A sleeper wakes at this schedule() or its counter goes down by one. */
  lemma {:induction false} SleepStep(s: Sched, t: Tid)
    requires Pre(s) && t in s.sleep && t < |s.tasks|
    ensures t < |Schedule(s).tasks|
    ensures if Wakes(s.tasks[t]) then
              t !in Schedule(s).sleep && Schedule(s).tasks[t].status.Runnable() && Schedule(s).tasks[t].sleepTicks == 0
            else t in Schedule(s).sleep &&
                 Schedule(s).tasks[t].sleepTicks == (s.tasks[t].sleepTicks + TWO32 - 1) % TWO32
  {
    hide NoDup, Wakers, Stay, Reversed, Placed, Dispatch, Wakes;
    WakeSleepersMid(s);
    WakeMember(s, t);
    var m := WakeSleepers(s);
    assert m.tasks[t] == Ticked(s.tasks[t], true);
    hide WakeSleepers;
    DispatchKeeps(m, t);
  }

  /** How many calls a counter lasts: a counter of 0 wraps around. */
  function Lasts(ticks: nat): (r: nat)
    ensures r > 0
  {
    if ticks == 0 then TWO32 else ticks
  }

  lemma {:induction false} LastsStep(task: Task)
    requires task.sleepTicks < TWO32
    ensures Wakes(task) <==> Lasts(task.sleepTicks) == 1
    ensures var c := (task.sleepTicks + TWO32 - 1) % TWO32;
            c < TWO32 && (!Wakes(task) ==> Lasts(c) == Lasts(task.sleepTicks) - 1)
  {
  }

  /** One event: a step that calls schedule() takes one call off, and the last one wakes. */
  lemma {:induction false} EventStep(k: State, e: Event, t: Tid)
    requires KernelInv(k) && Enabled(k, e) && t in k.s.sleep && t < |k.s.tasks| && k.s.tasks[t].sleepTicks < TWO32
    ensures var r, left := Step(k, e), Lasts(k.s.tasks[t].sleepTicks) - (if Schedules(k, e) then 1 else 0);
            && t < |r.s.tasks|
            && (left == 0 ==> t !in r.s.sleep && r.s.tasks[t].status.Runnable())
            && (left > 0 ==>
                  t in r.s.sleep && r.s.tasks[t].sleepTicks < TWO32 && Lasts(r.s.tasks[t].sleepTicks) == left)
  {
    hide KernelInv, Step, Schedules, Asked, Wakes, Schedule, Pre;
    StepAsked(k, e);
    AskedKeeps(k, e, t);
    LastsStep(Asked(k, e).tasks[t]);
    if Schedules(k, e) {
      AskedPre(k, e);
      SleepStep(Asked(k, e), t);
    }
  }

  // ------------------------------------------------------------------ whole runs

  /** How often schedule() is called in a run. */
  function Calls(k: State, es: seq<Event>): (r: nat)
    decreases |es|
  {
    if es == [] then 0
    else if !Enabled(k, es[0]) then Calls(k, es[1..])
    else (if Schedules(k, es[0]) then 1 else 0) + Calls(Step(k, es[0]), es[1..])
  }

  function Ticks(es: seq<Event>): (r: nat) {
    if es == [] then 0 else (if es[0].Tick? then 1 else 0) + Ticks(es[1..])
  }

  lemma {:induction false} AsleepUntil(k: State, t: Tid, es: seq<Event>)
    requires KernelInv(k) && t in k.s.sleep && t < |k.s.tasks| && k.s.tasks[t].sleepTicks < TWO32
    requires Calls(k, es) < Lasts(k.s.tasks[t].sleepTicks)
    ensures var r := Run(k, es);
            && KernelInv(r) && t in r.s.sleep && t < |r.s.tasks| && r.s.tasks[t].sleepTicks < TWO32
            && Lasts(r.s.tasks[t].sleepTicks) == Lasts(k.s.tasks[t].sleepTicks) - Calls(k, es)
    decreases |es|
  {
    hide KernelInv, Step, Schedules, Lasts;
    if es != [] {
      if Enabled(k, es[0]) {
        EventStep(k, es[0], t);
        StepInv(k, es[0]);
        AsleepUntil(Step(k, es[0]), t, es[1..]);
      } else {
        AsleepUntil(k, t, es[1..]);
      }
    }
  }

  /** The state after the call thread_sleep(n) itself, which counts as the first. With n == 1 the
      caller never leaves the processor. */
  lemma {:induction false} OwnCall(k: State, n: nat)
    requires KernelInv(k) && Enabled(k, Sleep(n)) && n < TWO32
    ensures var r, t := Step(k, Sleep(n)), k.s.cur;
            && KernelInv(r) && t < |r.s.tasks|
            && (n == 1 ==>
                  r.s.cur == t && t !in r.s.sleep && r.s.tasks[t].status.READY? &&
                  r.s.tasks[t].ticks == r.s.tasks[t].priority)
            && (n != 1 ==>
                  t in r.s.sleep && r.s.cur != t && r.s.tasks[t].sleepTicks < TWO32 &&
                  Lasts(r.s.tasks[t].sleepTicks) == Lasts(n) - 1)
  {
    hide KernelInv, Step, Wakes, Schedule, Pre, Lasts;
    var e, t := Sleep(n), k.s.cur;
    StepInv(k, e);
    StepAsked(k, e);
    AskedPre(k, e);
    var s := Asked(k, e);
    SelfAsked(k.s, n);
    LastsStep(s.tasks[t]);
    SleepStep(s, t);
    LastsOne(n);
    if n == 1 {
      StaysOn(s);
    } else {
      SleeperThere(Step(k, e), t);
    }
  }

  lemma {:induction false} LastsOne(n: nat)
    requires n < TWO32
    ensures Lasts(n) == 1 <==> n == 1
  {
  }

  lemma {:induction false} SelfAsked(s: Sched, n: nat)
    requires s.cur < |s.tasks|
    ensures var r := SetStatus(Slumber(s, n), s.cur, SLEEP, false);
            r.cur == s.cur && s.cur in r.sleep && |r.tasks| == |s.tasks| && r.tasks[s.cur].sleepTicks == n
  {
    hide Remove;
    assert s.cur in s.sleep + [s.cur];
  }

  /** A caller that wakes at once stands first in ready_tasks and goes on. */
  lemma {:induction false} StaysOn(s: Sched)
    requires Pre(s) && s.cur in s.sleep && Wakes(s.tasks[s.cur])
    ensures var r := Schedule(s);
            && r.cur == s.cur < |r.tasks| && r.tasks[s.cur].status.READY?
            && r.tasks[s.cur].ticks == r.tasks[s.cur].priority
  {
    hide NoDup, Wakers, Stay, Reversed, Placed, Wakes;
    WakeMember(s, s.cur);
    WakeFirst(s);
    var m := WakeSleepers(s);
    assert m.tasks[s.cur] == Ticked(s.tasks[s.cur], true);
  }

  /** A thread that sleeps one tick goes on with a full time slice, but its status stays READY: so
      the next tick takes the processor away from it and gives it to the first ready thread. */
  lemma {:induction false} ShortTurn(k: State)
    requires KernelInv(k) && Enabled(k, Sleep(1))
    ensures var r, t := Step(k, Sleep(1)), k.s.cur;
            && r.s.cur == t < |r.s.tasks| && r.s.tasks[t].ticks == r.s.tasks[t].priority && Enabled(r, Tick)
            && var first := WakeSleepers(r.s).ready; var next := Step(r, Tick).s;
               first != [] && next.cur == first[0] != t && t in next.ready
  {
    hide KernelInv, Step, WakeSleepers;
    OwnCall(k, 1);
    var r := Step(k, Sleep(1));
    StepAsked(r, Tick);
    ReadyPre(r);
    TakenAway(r.s);
  }

  lemma {:induction false} ReadyPre(k: State)
    requires KernelInv(k)
    ensures Pre(k.s)
  {
    hide SemInv, ProcInv;
  }

  /** A running thread whose status is READY has no time left, whatever its ticks say. */
  lemma {:induction false} TakenAway(s: Sched)
    requires Pre(s) && s.cur != IDLE && s.tasks[s.cur].status.READY?
    ensures var first, next := WakeSleepers(s).ready, Schedule(s);
            first != [] && next.cur == first[0] != s.cur && s.cur in next.ready
  {
    hide NoDup, Wakers, Stay, Reversed, Wakes;
    WakeSleepersMid(s);
    WakeMember(s, s.cur);
    WakeMember(s, IDLE);
    var m := WakeSleepers(s);
    assert m.tasks[s.cur] == s.tasks[s.cur] && m.cur == s.cur;
    assert Placed(s, IDLE) && Placed(s, s.cur);
    assert m.ready[0] in m.ready;
    var next := Dispatch(m);
    assert next.ready[|next.ready| - 1] == s.cur;
  }

  /** thread_sleep(n) sleeps through n calls of schedule(), its own being the first, and 2^32 for
      n == 0: while fewer have been made it is asleep. */
  lemma {:induction false} SleepsThrough(k: State, n: nat, es: seq<Event>)
    requires KernelInv(k) && Enabled(k, Sleep(n)) && n < TWO32
    requires 1 + Calls(Step(k, Sleep(n)), es) < Lasts(n)
    ensures k.s.cur in Run(Step(k, Sleep(n)), es).s.sleep
  {
    hide KernelInv, Step, Calls, Run;
    LastsOne(n);
    OwnCall(k, n);
    AsleepUntil(Step(k, Sleep(n)), k.s.cur, es);
  }

  /** Exactly the n-th call makes it ready. */
  lemma {:induction false} WokenByCall(k: State, n: nat, es: seq<Event>, e: Event)
    requires KernelInv(k) && Enabled(k, Sleep(n)) && n < TWO32 && n != 1
    requires var r := Run(Step(k, Sleep(n)), es);
             Enabled(r, e) && Schedules(r, e) && 2 + Calls(Step(k, Sleep(n)), es) == Lasts(n)
    ensures var r := Step(Run(Step(k, Sleep(n)), es), e);
            && KernelInv(r) && k.s.cur < |r.s.tasks| && k.s.cur !in r.s.sleep
            && r.s.tasks[k.s.cur].status.Runnable() && (k.s.cur == r.s.cur || k.s.cur in r.s.ready)
  {
    hide KernelInv, Step, Calls, Run, Schedules, Lasts;
    OwnCall(k, n);
    var r := Run(Step(k, Sleep(n)), es);
    AsleepUntil(Step(k, Sleep(n)), k.s.cur, es);
    EventStep(r, e, k.s.cur);
    StepInv(r, e);
    RunnablePlaced(Step(r, e), k.s.cur);
  }

  lemma {:induction false} RunnablePlaced(k: State, t: Tid)
    requires KernelInv(k) && t < |k.s.tasks| && k.s.tasks[t].status.Runnable()
    ensures t == k.s.cur || t in k.s.ready
  {
    hide SemInv, ProcInv, NoDup;
    assert Placed(k.s, t);
  }

  // ------------------------------------------------------------------ ticks of the timer

  /** Every tick calls schedule(), so the ticks are some of the calls. */
  lemma {:induction false} TicksAreCalls(k: State, es: seq<Event>)
    requires KernelInv(k)
    ensures Ticks(es) <= Calls(k, es)
    decreases |es|
  {
    hide KernelInv, Step;
    if es != [] {
      CurParent(k);
      if Enabled(k, es[0]) {
        StepInv(k, es[0]);
        TicksAreCalls(Step(k, es[0]), es[1..]);
      } else {
        TicksAreCalls(k, es[1..]);
      }
    }
  }

  /** The calls of schedule() in a run that no tick makes. */
  function Others(k: State, es: seq<Event>): (r: int) {
    Calls(k, es) - Ticks(es)
  }

  lemma {:induction false} CallsLast(k: State, es: seq<Event>, e: Event)
    requires Enabled(Run(k, es), e)
    ensures Calls(k, es + [e]) == Calls(k, es) + (if Schedules(Run(k, es), e) then 1 else 0)
    ensures Ticks(es + [e]) == Ticks(es) + (if e.Tick? then 1 else 0)
    decreases |es|
  {
    hide Step, Schedules;
    if es == [] {
      assert [e][1..] == [] && es + [e] == [e];
    } else {
      assert (es + [e])[1..] == es[1..] + [e];
      CallsLast(if Enabled(k, es[0]) then Step(k, es[0]) else k, es[1..], e);
    }
  }

  /** A thread is meant to sleep n ticks. When it is woken, exactly Lasts(n) - 1 ticks and other
      calls of schedule() have passed since its own: so for n > 0 it never sleeps n ticks, and it
      sleeps n - 1 if and only if nothing but the timer called schedule() in between. */
  lemma {:induction false} TicksSlept(k: State, n: nat, es: seq<Event>, e: Event)
    requires KernelInv(k) && Enabled(k, Sleep(n)) && n < TWO32 && n != 1
    requires var r := Run(Step(k, Sleep(n)), es);
             Enabled(r, e) && Schedules(r, e) && 2 + Calls(Step(k, Sleep(n)), es) == Lasts(n)
    ensures var k1 := Step(k, Sleep(n)); var ticks, others := Ticks(es + [e]), Others(k1, es + [e]);
            && others >= 0 && ticks + others == Lasts(n) - 1
            && (n > 0 ==> ticks < n && (ticks == n - 1 <==> others == 0))
            && (n == 0 ==> (ticks == n <==> others == TWO32 - 1))
  {
    hide KernelInv, Step, Calls, Run, Schedules, Ticks;
    var k1 := Step(k, Sleep(n));
    StepInv(k, Sleep(n));
    CallsLast(k1, es, e);
    TicksAreCalls(k1, es + [e]);
  }

  const S1 := At([Idler(READY, true, 0), Proc(RUNNING, false, 1, 0)], [0], 1, [])
  const S2 := At([Idler(READY, true, 0), Proc(RUNNING, false, 1, 0), Proc(RUNNING, true, 2, 1)], [0, 2], 1, [])
  const S3 := At([Idler(RUNNING, false, 1), Proc(READY, true, 1, 0), Proc(RUNNING, true, 2, 1)], [2, 1], 0, [])
  const S4 := At([Idler(READY, true, 0), Proc(READY, true, 1, 0), Proc(RUNNING, false, 2, 1)], [1, 0], 2, [])

  /** init forks, and the child comes to run. */
  lemma {:induction false} ChildRuns(es: seq<Event>)
    ensures Run(Boot([]), [Tick] + ([Tick] + ([Fork] + ([Yield] + ([Tick] + ([Tick] + es)))))) == Run(S4, es)
  {
    hide Run;
    BootAt([]);
    assert Boot([]).sems == [];
    IdleTo(Boot([]), S1, [Fork] + ([Yield] + ([Tick] + ([Tick] + es))));
    ForkTo(S1, S2, [Yield] + ([Tick] + ([Tick] + es)));
    YieldTo(S2, S3, [Tick] + ([Tick] + es));
    IdleTo(S3, S4, es);
  }

  /** Only one task sleeps, with time left, and gives the processor to the first ready one. */
  lemma {:induction false} SleepPasses(s: Sched, n: nat)
    requires s.cur < |s.tasks| && s.sleep == [] && s.ready != [] && s.ready[0] < |s.tasks| && s.cur !in s.ready
    requires 1 < n < TWO32
    ensures Leave(Slumber(s, n), SLEEP).cur == s.ready[0]
  {
    hide Remove;
    var m := SetStatus(Slumber(s, n), s.cur, SLEEP, false);
    RemoveAbsent(s.ready, s.cur);
    assert m.sleep == [s.cur] && m.tasks[s.cur].sleepTicks == n;
    assert [s.cur][1..] == [];
    assert Wakers(m.tasks, m.sleep) == [] && Reversed([]) + m.ready == m.ready;
  }

  /** A run that breaks it: a child of init asks for two ticks, init yields, and the child is awake
      without a single tick. */
  lemma {:induction false} AwakeWithoutATick() returns (es: seq<Event>)
    ensures var k := Reached([], es); var e := Sleep(2);
            && Enabled(k, e) && k.s.cur in Step(k, e).s.sleep
            && Step(k, e).s.cur == INIT && Enabled(Step(k, e), Yield)
            && k.s.cur !in Step(Step(k, e), Yield).s.sleep
  {
    hide KernelInv, Schedules, Run, Calls, Lasts, Leave, Slumber;
    es := [Tick] + ([Tick] + ([Fork] + ([Yield] + ([Tick] + ([Tick] + [])))));
    ChildRuns([]);
    RunNone(S4);
    ReachedInv([], es);
    var k1 := Step(S4, Sleep(2));
    SleepPasses(S4.s, 2);
    OwnCall(S4, 2);
    RunNone(k1);
    assert Calls(k1, []) == 0 by { NoCalls(k1); }
    assert Lasts(2) == 2 by { LastsTwo(); }
    CurParent(k1);
    YieldSchedules(k1);
    WokenByCall(S4, 2, [], Yield);
  }

  lemma {:induction false} NoCalls(k: State)
    ensures Calls(k, []) == 0
  {
  }

  lemma {:induction false} LastsTwo()
    ensures Lasts(2) == 2
  {
  }

  lemma {:induction false} YieldSchedules(k: State)
    requires k.s.cur < |k.s.tasks| && k.s.cur != IDLE
    ensures Enabled(k, Yield) && Schedules(k, Yield)
  {
  }
}
