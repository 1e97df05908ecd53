/** When a ready thread gets the processor. ready_tasks is served from its front, new threads go to
    its end, but sleepers that wake and waiters that are released go to its front. */
module KernelTurns {
  import opened Chunks
  import opened Lists
  import opened Segment
  import opened Scheduler
  import opened Kernel
  import opened KernelRuns
  import opened KernelSleep

  /** Thread `t` is at place `i` of ready_tasks. */
  predicate ReadyAt(s: Sched, t: Tid, i: int) {
    0 <= i < |s.ready| && s.ready[i] == t
  }

  /** The running thread does not go on. */
  predicate Ends(s: Sched) {
    s.cur < |s.tasks| && !(s.tasks[s.cur].status.RUNNING? && s.tasks[s.cur].ticks > 0)
  }

  /** How many threads a step puts in front of the list, and how many it takes from there. */
  function Fronts(k: State, e: Event): (r: nat)
    requires Enabled(k, e)
  {
    if Schedules(k, e) then |Wakers(Asked(k, e).tasks, Asked(k, e).sleep)|
    else if e.SemWakeup? && Woken(k.sems[e.i]).Some? then 1 else 0
  }

  function Pops(k: State, e: Event): (r: nat)
    requires Enabled(k, e)
  {
    if Schedules(k, e) && Ends(WakeSleepers(Asked(k, e))) then 1 else 0
  }

  // ------------------------------------------------------------------ one step

  /** Changing the status of a thread that is not ready. */
  lemma {:induction false} SetPlace(s: Sched, x: Tid, status: Status, first: bool, t: Tid, i: nat)
    requires ReadyAt(s, t, i) && x < |s.tasks| && x !in s.ready
    ensures var push := !s.tasks[x].status.Runnable() && status.READY? && first;
            ReadyAt(SetStatus(s, x, status, first), t, if push then i + 1 else i)
  {
    hide Remove;
    RemoveAbsent(s.ready, x);
  }

  lemma {:induction false} ReadyFacts(k: State)
    requires KernelInv(k)
    ensures k.s.cur < |k.s.tasks| && k.s.cur !in k.s.ready && k.s.tasks[k.s.cur].status.Runnable()
    ensures forall x :: 0 <= x < |k.s.tasks| && !k.s.tasks[x].status.Runnable() ==> x !in k.s.ready
  {
    hide SemInv, ProcInv, NoDup, Placed;
  }

  lemma {:induction false} WaiterFacts(k: State, i: nat)
    requires KernelInv(k) && i < |k.sems| && Woken(k.sems[i]).Some?
    ensures var w := Woken(k.sems[i]).value; w < |k.s.tasks| && !k.s.tasks[w].status.Runnable()
  {
    hide Inv, ProcInv, NoDup;
    assert SemOk(k.s.tasks, k.sems[i]) && k.sems[i].waiters[0] in k.sems[i].waiters;
  }

  lemma {:induction false} ExitPlace(k: State, t: Tid, i: nat)
    requires KernelInv(k) && Enabled(k, Exit) && ReadyAt(k.s, t, i)
    ensures ReadyAt(SetStatus(Orphan(k), k.s.cur, HANGING, false), t, i)
  {
    hide SetStatus, FindPid, KernelInv;
    ReadyFacts(k);
    var s := k.s.(tasks := Rechild(k.s.tasks, k.all, k.s.tasks[k.s.cur].pid));
    var p := FindPid(s.tasks, k.all, s.tasks[s.cur].ppid);
    if p.Some? && s.tasks[p.value].status.WAITING? {
      SetPlace(s, p.value, READY, false, t, i);
      PushLast(s, p.value, k.s.cur);
    }
    SetPlace(Orphan(k), k.s.cur, HANGING, false, t, i);
  }

  lemma {:induction false} PushLast(s: Sched, p: Tid, c: Tid)
    requires p < |s.tasks| && s.tasks[p].status.WAITING?
    requires c < |s.tasks| && s.tasks[c].status.Runnable() && c !in s.ready
    ensures c !in SetStatus(s, p, READY, false).ready
  {
  }

  /** What a step does to the list before schedule(). */
  lemma {:induction false} AskedPlace(k: State, e: Event, t: Tid, i: nat)
    requires KernelInv(k) && Enabled(k, e) && ReadyAt(k.s, t, i)
    ensures ReadyAt(Asked(k, e), t, if Schedules(k, e) then i else i + Fronts(k, e))
    ensures Asked(k, e).cur == k.s.cur != t
  {
    hide SetStatus, Child, FindPid, FreePid, KernelInv, Orphan, ReadyAt;
    ReadyFacts(k);
    assert t in k.s.ready by { PlaceIn(k.s, t, i); }
    SetKeepsCur();
    match e {
      case Tick =>
      case Yield => SetPlace(k.s, k.s.cur, READY, false, t, i);
      case Sleep(ticks) =>
        SlumberPlace(k.s, ticks, t, i);
        SetPlace(Slumber(k.s, ticks), k.s.cur, SLEEP, false, t, i);
      case SemWait(_) => SetPlace(k.s, k.s.cur, BLOCKED, false, t, i);
      case SemWakeup(j) =>
        if Woken(k.sems[j]).Some? {
          WaiterFacts(k, j);
          SetPlace(k.s, Woken(k.sems[j]).value, READY, true, t, i);
        }
      case Fork => SpawnPlace(k.s, FreePid(k.used, 0), k.s.tasks[k.s.cur].pid, t, i);
      case Wait =>
        SetPlace(k.s, k.s.cur, WAITING, false, t, i);
        var h := Child(k.s.tasks, k.all, k.s.tasks[k.s.cur].pid, true);
        if h.Some? {
          SetPlace(k.s, h.value, DIED, false, t, i);
        }
      case Exit => ExitPlace(k, t, i);
    }
  }

  lemma {:induction false} PlaceIn(s: Sched, t: Tid, i: nat)
    requires ReadyAt(s, t, i)
    ensures t in s.ready
  {
  }

  lemma {:induction false} SetKeepsCur()
    ensures forall s: Sched, x: Tid, status: Status, first: bool :: x < |s.tasks| ==>
              SetStatus(s, x, status, first).cur == s.cur
  {
  }

  lemma {:induction false} SlumberPlace(s: Sched, ticks: nat, t: Tid, i: nat)
    requires s.cur < |s.tasks| && ReadyAt(s, t, i)
    ensures ReadyAt(Slumber(s, ticks), t, i)
  {
  }

  lemma {:induction false} SpawnPlace(s: Sched, pid: nat, ppid: nat, t: Tid, i: nat)
    requires s.cur < |s.tasks| && ReadyAt(s, t, i)
    ensures ReadyAt(Spawn(s, pid, ppid), t, i)
  {
  }

  /** schedule() itself: the wakers go in front, and one thread is taken unless the running one goes
      on. */
  lemma {:induction false} SchedulePlace(s: Sched, t: Tid, i: nat)
    requires Pre(s) && ReadyAt(s, t, i) && t != s.cur
    ensures var at := i + |Wakers(s.tasks, s.sleep)| - (if Ends(WakeSleepers(s)) then 1 else 0);
            && (Schedule(s).cur == t <==> at < 0)
            && (at >= 0 ==> ReadyAt(Schedule(s), t, at))
  {
    hide Pre, Wakers, Stay, Reversed, NoDup, Placed;
    WakeSleepersMid(s);
    var m, f := WakeSleepers(s), |Wakers(s.tasks, s.sleep)|;
    assert ReadyAt(m, t, i + f);
    DispatchPlace(m, t, i + f);
  }

  lemma {:induction false} DispatchPlace(s: Sched, t: Tid, i: nat)
    requires Mid(s) && ReadyAt(s, t, i) && t != s.cur
    ensures var at := i - (if Ends(s) then 1 else 0);
            && (Dispatch(s).cur == t <==> at < 0)
            && (at >= 0 ==> ReadyAt(Dispatch(s), t, at))
  {
    hide Placed;
    assert s.ready[0] in s.ready;
    assert i > 0 ==> s.ready[0] != t;
  }

  /** A step moves a ready thread back by the threads put in front and forward by the one taken, and
      it gets the processor exactly if that leads past the front. */
  lemma {:induction false} TurnStep(k: State, e: Event, t: Tid, i: nat)
    requires KernelInv(k) && Enabled(k, e) && ReadyAt(k.s, t, i)
    ensures var at := i + Fronts(k, e) - Pops(k, e);
            && (Step(k, e).s.cur == t <==> at < 0)
            && (at >= 0 ==> ReadyAt(Step(k, e).s, t, at))
  {
    hide KernelInv, Step, Schedules, Asked, Schedule, WakeSleepers, ReadyAt, Ends;
    StepAsked(k, e);
    AskedPlace(k, e, t, i);
    if Schedules(k, e) {
      AskedPre(k, e);
      SchedulePlace(Asked(k, e), t, i);
    }
  }

  // ------------------------------------------------------------------ every run

  /** The threads put in front and the threads taken from there in a run. */
  function AllFronts(k: State, es: seq<Event>): (r: nat)
    decreases |es|
  {
    if es == [] then 0
    else if !Enabled(k, es[0]) then AllFronts(k, es[1..])
    else Fronts(k, es[0]) + AllFronts(Step(k, es[0]), es[1..])
  }

  function AllPops(k: State, es: seq<Event>): (r: nat)
    decreases |es|
  {
    if es == [] then 0
    else if !Enabled(k, es[0]) then AllPops(k, es[1..])
    else Pops(k, es[0]) + AllPops(Step(k, es[0]), es[1..])
  }

  /** After `j` events the thread has the processor; more threads were taken than stood before it. */
  predicate Has(k: State, t: Tid, es: seq<Event>, j: nat) {
    j <= |es| && Run(k, es[..j]).s.cur == t
  }

  predicate Due(k: State, i: int, es: seq<Event>, j: nat) {
    j <= |es| && AllPops(k, es[..j]) > i + AllFronts(k, es[..j])
  }

  lemma {:induction false} Shift(k: State, es: seq<Event>, t: Tid, i: int, j: nat)
    requires es != []
    ensures var n := if Enabled(k, es[0]) then Step(k, es[0]) else k;
            var at := if Enabled(k, es[0]) then i + Fronts(k, es[0]) - Pops(k, es[0]) else i;
            && (Has(k, t, es, j + 1) <==> Has(n, t, es[1..], j))
            && (Due(k, i, es, j + 1) <==> Due(n, at, es[1..], j))
  {
    hide Step, Enabled, Fronts, Pops;
    if j + 1 <= |es| {
      assert es[..j + 1][1..] == es[1..][..j] && es[..j + 1][0] == es[0];
    }
  }

  lemma {:induction false} Start(k: State, es: seq<Event>, t: Tid, i: nat)
    requires KernelInv(k) && ReadyAt(k.s, t, i)
    ensures !Has(k, t, es, 0) && !Due(k, i, es, 0)
  {
    hide KernelInv;
    ReadyFacts(k);
    assert es[..0] == [];
  }

  /** Over every run: a thread at place `i` of ready_tasks gets the processor if and only if at some
      point more threads have been taken from the front than `i` and those put in front since. */
  lemma {:induction false} TurnIff(k: State, t: Tid, i: nat, es: seq<Event>)
    requires KernelInv(k) && ReadyAt(k.s, t, i)
    ensures (exists j: nat :: Has(k, t, es, j)) <==> (exists j: nat :: Due(k, i, es, j))
    decreases |es|
  {
    hide KernelInv, ReadyAt, Has, Due, Step, Enabled, Fronts, Pops;
    Start(k, es, t, i);
    if es == [] {
      Nowhere(k, t, i);
    } else {
      var n := if Enabled(k, es[0]) then Step(k, es[0]) else k;
      var at := if Enabled(k, es[0]) then i + Fronts(k, es[0]) - Pops(k, es[0]) else i;
      if Enabled(k, es[0]) {
        TurnStep(k, es[0], t, i);
        StepInv(k, es[0]);
      }
      forall j: nat
        ensures Has(k, t, es, j + 1) <==> Has(n, t, es[1..], j)
        ensures Due(k, i, es, j + 1) <==> Due(n, at, es[1..], j)
      {
        Shift(k, es, t, i, j);
      }
      if at < 0 {
        Now(n, t, at, es[1..]);
        assert Has(k, t, es, 0 + 1) && Due(k, i, es, 0 + 1);
      } else {
        TurnIff(n, t, at, es[1..]);
        Later(k, n, t, i, at, es);
      }
    }
  }

  lemma {:induction false} Nowhere(k: State, t: Tid, i: nat)
    requires !Has(k, t, [], 0) && !Due(k, i, [], 0)
    ensures forall j: nat :: !Has(k, t, [], j) && !Due(k, i, [], j)
  {
  }

  lemma {:induction false} Now(n: State, t: Tid, at: int, es: seq<Event>)
    requires n.s.cur == t && at < 0
    ensures Has(n, t, es, 0) && Due(n, at, es, 0)
  {
    assert es[..0] == [];
  }

  lemma {:induction false} Later(k: State, n: State, t: Tid, i: nat, at: nat, es: seq<Event>)
    requires es != [] && !Has(k, t, es, 0) && !Due(k, i, es, 0)
    requires forall j: nat :: (Has(k, t, es, j + 1) <==> Has(n, t, es[1..], j)) &&
                              (Due(k, i, es, j + 1) <==> Due(n, at, es[1..], j))
    requires (exists j: nat :: Has(n, t, es[1..], j)) <==> (exists j: nat :: Due(n, at, es[1..], j))
    ensures (exists j: nat :: Has(k, t, es, j)) <==> (exists j: nat :: Due(k, i, es, j))
  {
    hide Has, Due;
    if j: nat :| Has(k, t, es, j) {
      assert Has(n, t, es[1..], j - 1) by { assert Has(k, t, es, (j - 1) + 1); }
      var l: nat :| Due(n, at, es[1..], l);
      assert Due(k, i, es, l + 1);
    }
    if j: nat :| Due(k, i, es, j) {
      assert Due(n, at, es[1..], j - 1) by { assert Due(k, i, es, (j - 1) + 1); }
      var l: nat :| Has(n, t, es[1..], l);
      assert Has(k, t, es, l + 1);
    }
  }

  // ------------------------------------------------------------------ a thread that starves

  const A1 := At([Idler(READY, true, 0), Proc(RUNNING, false, 1, 0)], [0], 1, [Seg(0, []), Seg(0, [])])
  const A2 := At([Idler(READY, true, 0), Proc(RUNNING, false, 1, 0), Proc(RUNNING, true, 2, 1)],
                 [0, 2], 1, [Seg(0, []), Seg(0, [])])
  const A3 := At([Idler(READY, true, 0), Proc(RUNNING, false, 1, 0), Proc(RUNNING, true, 2, 1),
                  Proc(RUNNING, true, 3, 1)],
                 [0, 2, 3], 1, [Seg(0, []), Seg(0, [])])
  const A4 := At([Idler(RUNNING, false, 1), Proc(READY, true, 1, 0), Proc(RUNNING, true, 2, 1),
                  Proc(RUNNING, true, 3, 1)],
                 [2, 3, 1], 0, [Seg(0, []), Seg(0, [])])
  const A5 := At([Idler(READY, true, 0), Proc(READY, true, 1, 0), Proc(RUNNING, false, 2, 1),
                  Proc(RUNNING, true, 3, 1)],
                 [3, 1, 0], 2, [Seg(0, []), Seg(0, [])])
  const A6 := At([Idler(READY, true, 0), Proc(READY, true, 1, 0), Proc(BLOCKED, false, 2, 1),
                  Proc(RUNNING, false, 3, 1)],
                 [1, 0], 3, [Seg(0, [2]), Seg(0, [])])
  const B0 := At([Idler(READY, true, 0), Proc(RUNNING, false, 1, 0), Proc(BLOCKED, false, 2, 1),
                  Proc(READY, true, 3, 1)],
                 [0, 3], 1, [Seg(0, [2]), Seg(0, [])])
  const B1 := At([Idler(READY, true, 0), Proc(RUNNING, false, 1, 0).(ticks := 30), Proc(BLOCKED, false, 2, 1),
                  Proc(READY, true, 3, 1)],
                 [0, 3], 1, [Seg(0, [2]), Seg(0, [])])
  const B2 := At([Idler(READY, true, 0), Proc(RUNNING, false, 1, 0).(ticks := 30), Proc(READY, true, 2, 1),
                  Proc(READY, true, 3, 1)],
                 [2, 0, 3], 1, [Seg(0, []), Seg(0, [])])
  const B3 := At([Idler(READY, true, 0), Proc(BLOCKED, false, 1, 0).(ticks := 30), Proc(RUNNING, false, 2, 1),
                  Proc(READY, true, 3, 1)],
                 [0, 3], 2, [Seg(0, []), Seg(0, [1])])
  const B4 := At([Idler(READY, true, 0), Proc(READY, true, 1, 0).(ticks := 30), Proc(RUNNING, false, 2, 1),
                  Proc(READY, true, 3, 1)],
                 [1, 0, 3], 2, [Seg(0, []), Seg(0, [])])

  /** init forks twice. */
  lemma {:induction false} TwoChildren(es: seq<Event>)
    ensures Run(Boot([0, 0]), [Tick] + ([Tick] + ([Fork] + ([Fork] + ([Yield] + es))))) == Run(A4, es)
  {
    hide Run;
    BootAt([0, 0]);
    assert Boot([0, 0]).sems == [Seg(0, []), Seg(0, [])];
    IdleTo(Boot([0, 0]), A1, [Fork] + ([Fork] + ([Yield] + es)));
    ForkTo(A1, A2, [Fork] + ([Yield] + es));
    ForkTo(A2, A3, [Yield] + es);
    YieldTo(A3, A4, es);
  }

  /** The first child waits at a semaphore, and the second one hands back to init. */
  lemma {:induction false} FirstWaits(es: seq<Event>)
    ensures Run(A4, [Tick] + ([Tick] + ([SemWait(0)] + ([Yield] + es)))) == Run(B0, es)
  {
    hide Run;
    IdleTo(A4, A5, [SemWait(0)] + ([Yield] + es));
    BlockTo(A5, A6, 0, [Yield] + es);
    YieldTo(A6, B0, es);
  }

  /** init and the first child pass the processor to each other. */
  const CYCLE := [Tick, SemWakeup(0), SemWait(1), SemWakeup(1), SemWait(0)]

  lemma {:induction false} FirstHalf(es: seq<Event>)
    ensures Run(B0, [Tick] + ([SemWakeup(0)] + ([SemWait(1)] + es))) == Run(B3, es)
  {
    hide Run;
    TickDown(B0, B1, [SemWakeup(0)] + ([SemWait(1)] + es));
    WakeTo(B1, B2, 0, [SemWait(1)] + es);
    BlockTo(B2, B3, 1, es);
  }

  lemma {:induction false} SecondHalf(es: seq<Event>)
    ensures Run(B3, [SemWakeup(1)] + ([SemWait(0)] + es)) == Run(B0, es)
  {
    hide Run;
    WakeTo(B3, B4, 1, [SemWait(0)] + es);
    BlockTo(B4, B0, 0, es);
  }

  lemma {:induction false} OneCycle(es: seq<Event>)
    ensures Run(B0, CYCLE + es) == Run(B0, es)
  {
    hide Run;
    var late := [SemWakeup(1)] + ([SemWait(0)] + es);
    FirstHalf(late);
    SecondHalf(es);
    assert CYCLE + es == [Tick] + ([SemWakeup(0)] + ([SemWait(1)] + late));
  }

  /** Inside a cycle one of the two runs. */
  lemma {:induction false} PartOfCycle(j: nat)
    requires j < |CYCLE|
    ensures Run(B0, CYCLE[..j]).s.cur != 3
  {
    hide Run;
    if j == 0 {
      RunNone(B0);
      assert CYCLE[..0] == [];
    } else if j == 1 {
      TickDown(B0, B1, []);
      RunNone(B1);
      assert CYCLE[..1] == [Tick] + [];
    } else if j == 2 {
      TickDown(B0, B1, [SemWakeup(0)] + []);
      WakeTo(B1, B2, 0, []);
      RunNone(B2);
      assert CYCLE[..2] == [Tick] + ([SemWakeup(0)] + []);
    } else if j == 3 {
      FirstHalf([]);
      RunNone(B3);
      assert CYCLE[..3] == [Tick] + ([SemWakeup(0)] + ([SemWait(1)] + []));
    } else {
      FirstHalf([SemWakeup(1)] + []);
      WakeTo(B3, B4, 1, []);
      RunNone(B4);
      assert CYCLE[..4] == [Tick] + ([SemWakeup(0)] + ([SemWait(1)] + ([SemWakeup(1)] + [])));
    }
  }

  function Cycles(n: nat): (r: seq<Event>) {
    if n == 0 then [] else CYCLE + Cycles(n - 1)
  }

  lemma {:induction false} NeverThree(n: nat, j: nat)
    requires j <= |Cycles(n)|
    ensures Run(B0, Cycles(n)[..j]).s.cur != 3
  {
    hide Run;
    if n == 0 {
      RunNone(B0);
      assert Cycles(n)[..j] == [];
    } else if j < |CYCLE| {
      PartOfCycle(j);
      assert Cycles(n)[..j] == CYCLE[..j];
    } else {
      var rest := Cycles(n - 1)[..j - |CYCLE|];
      assert Cycles(n)[..j] == CYCLE + rest;
      OneCycle(rest);
      NeverThree(n - 1, j - |CYCLE|);
    }
  }

  lemma {:induction false} AllCycles(n: nat)
    ensures Run(B0, Cycles(n)) == B0 && Ticks(Cycles(n)) == n
  {
    hide Run;
    if n == 0 {
      RunNone(B0);
    } else {
      OneCycle(Cycles(n - 1));
      AllCycles(n - 1);
      CycleTicks(Cycles(n - 1));
    }
  }

  lemma {:induction false} CycleTicks(es: seq<Event>)
    ensures Ticks(CYCLE + es) == 1 + Ticks(es)
  {
    var a := [SemWait(0)] + es;
    var b := [SemWakeup(1)] + a;
    var c := [SemWait(1)] + b;
    var d := [SemWakeup(0)] + c;
    assert CYCLE + es == [Tick] + d;
    TicksHead(SemWait(0), es);
    TicksHead(SemWakeup(1), a);
    TicksHead(SemWait(1), b);
    TicksHead(SemWakeup(0), c);
    TicksHead(Tick, d);
  }

  lemma {:induction false} TicksHead(e: Event, es: seq<Event>)
    ensures Ticks([e] + es) == (if e.Tick? then 1 else 0) + Ticks(es)
  {
    assert ([e] + es)[1..] == es;
  }

  /** From boot: two threads that hand the processor to each other through semaphores keep it, for any
      number of ticks of the timer, and a third one that is ready all the time never gets it. */
  lemma {:induction false} Starves(n: nat) returns (es: seq<Event>)
    ensures var k := Reached([0, 0], es);
            && ReadyAt(k.s, 3, 1) && Run(k, Cycles(n)) == k && Ticks(Cycles(n)) == n
            && forall j: nat :: !Has(k, 3, Cycles(n), j)
  {
    hide Run, Cycles;
    var late := [Tick] + ([Tick] + ([SemWait(0)] + ([Yield] + [])));
    es := [Tick] + ([Tick] + ([Fork] + ([Fork] + ([Yield] + late))));
    TwoChildren(late);
    FirstWaits([]);
    RunNone(B0);
    AllCycles(n);
    forall j: nat ensures !Has(B0, 3, Cycles(n), j) {
      if j <= |Cycles(n)| {
        NeverThree(n, j);
      }
    }
  }
}
