/** The ring access of kernel/net/fixq.c in parts. Nothing protects it: a thread can be interrupted
    between its access to the slot, its move of the index, and the load and the store that change
    cnt; and the slot and the index may come in either order, which `buf[in++]` leaves open. Here
    one thread at a time is inside the access on each side, the two sides interleave in any way, and
    any number of threads wait before the access and behind it. */
module FixqParts {
  import opened Segment
  import FixqRun

  type Msg = FixqRun.Msg

  /** Where a thread is in its access: the index has moved on from `at` but the slot is not done; the
      slot is done but the index has not moved; both are done; cnt was loaded as `c`, and the other
      side has stored cnt `seen` times since. */
  datatype Mover =
    | Still | Ahead(msg: Msg, at: nat) | Slotted(msg: Msg) | Moved(msg: Msg) | Loaded(msg: Msg, c: int, seen: nat)

  /** The queue; the units in the two semaphores, the units held by threads in front of the access
      and behind it; the access under way on each side; and all messages stored and fetched. */
  datatype State = State(size: nat, buf: seq<Msg>, inn: nat, out: nat, cnt: int,
                         sendUnits: nat, sendHave: nat, sendDone: nat, recvUnits: nat, recvHave: nat, recvDone: nat,
                         s: Mover, r: Mover, stored: seq<Msg>, fetched: seq<Msg>)

  datatype Event =
    | TakeSend | WriteSlot(msg: Msg) | BumpIn | BumpInFirst(msg: Msg) | FillSlot | LoadIn | StoreIn | GiveRecv
    | TakeRecv | ReadSlot | BumpOut | BumpOutFirst | DrainSlot | LoadOut | StoreOut | GiveSend

  predicate Enabled(p: State, e: Event) {
    match e
    case TakeSend => p.sendUnits > 0
    case WriteSlot(_) => p.sendHave > 0 && p.s.Still?
    case BumpIn => p.s.Slotted?
    case BumpInFirst(_) => p.sendHave > 0 && p.s.Still?
    case FillSlot => p.s.Ahead?
    case LoadIn => p.s.Moved?
    case StoreIn => p.s.Loaded?
    case GiveRecv => p.sendDone > 0
    case TakeRecv => p.recvUnits > 0
    case ReadSlot => p.recvHave > 0 && p.r.Still?
    case BumpOut => p.r.Slotted?
    case BumpOutFirst => p.recvHave > 0 && p.r.Still?
    case DrainSlot => p.r.Ahead?
    case LoadOut => p.r.Moved?
    case StoreOut => p.r.Loaded?
    case GiveSend => p.recvDone > 0
  }

  /** What a store of cnt by the other side means for a thread that has loaded it. */
  function Saw(m: Mover): (r: Mover) {
    if m.Loaded? then m.(seen := m.seen + 1) else m
  }

  /** The next state. SlotsAreSafe shows that the guards on the slots never fail. */
  function Step(p: State, e: Event): (r: State)
    requires Enabled(p, e)
  {
    match e
    case TakeSend => p.(sendUnits := p.sendUnits - 1, sendHave := p.sendHave + 1)
    case WriteSlot(msg) =>
      if p.inn >= |p.buf| then p else
      p.(sendHave := p.sendHave - 1, buf := p.buf[p.inn := msg], s := Slotted(msg), stored := p.stored + [msg])
    case BumpIn => p.(inn := FixqRun.Bump(p.inn, p.size), s := Moved(p.s.msg))
    case BumpInFirst(msg) =>
      p.(sendHave := p.sendHave - 1, inn := FixqRun.Bump(p.inn, p.size), s := Ahead(msg, p.inn))
    case FillSlot =>
      if p.s.at >= |p.buf| then p else
      p.(buf := p.buf[p.s.at := p.s.msg], s := Moved(p.s.msg), stored := p.stored + [p.s.msg])
    case LoadIn => p.(s := Loaded(p.s.msg, p.cnt, 0))
    case StoreIn => p.(cnt := p.s.c + 1, s := Still, r := Saw(p.r), sendDone := p.sendDone + 1)
    case GiveRecv => p.(sendDone := p.sendDone - 1, recvUnits := p.recvUnits + 1)
    case TakeRecv => p.(recvUnits := p.recvUnits - 1, recvHave := p.recvHave + 1)
    case ReadSlot =>
      if p.out >= |p.buf| then p else
      var msg := p.buf[p.out];
      p.(recvHave := p.recvHave - 1, r := Slotted(msg), fetched := p.fetched + [msg])
    case BumpOut => p.(out := FixqRun.Bump(p.out, p.size), r := Moved(p.r.msg))
    case BumpOutFirst =>
      p.(recvHave := p.recvHave - 1, out := FixqRun.Bump(p.out, p.size), r := Ahead(0, p.out))
    case DrainSlot =>
      if p.r.at >= |p.buf| then p else
      var msg := p.buf[p.r.at];
      p.(r := Moved(msg), fetched := p.fetched + [msg])
    case LoadOut => p.(r := Loaded(p.r.msg, p.cnt, 0))
    case StoreOut => p.(cnt := p.r.c - 1, r := Still, s := Saw(p.s), recvDone := p.recvDone + 1)
    case GiveSend => p.(recvDone := p.recvDone - 1, sendUnits := p.sendUnits + 1)
  }

  /** fixq_init. */
  function Init(size: nat): (r: State) {
    State(size, seq(size, i => 0), 0, 0, 0, size, 0, 0, 0, 0, 0, Still, Still, [], [])
  }

  // ------------------------------------------------------------------ order and units

  /** A thread is in front of its slot with the index moved; or behind its slot. */
  function Held(m: Mover): (r: nat) {
    if m.Ahead? then 1 else 0
  }

  function Done(m: Mover): (r: nat) {
    if m.Still? || m.Ahead? then 0 else 1
  }

  predicate Left(m: Mover, index: nat, size: nat) {
    m.Ahead? ==> index == FixqRun.Bump(m.at, size)
  }

  function Stock(p: State): (r: int) {
    |p.stored| - |p.fetched|
  }

  /** The queue as if every access took effect as a whole when it reaches its slot. */
  function Whole(p: State): (r: FixqRun.Queue) {
    FixqRun.Queue(p.size, p.buf,
                  if p.s.Slotted? then FixqRun.Bump(p.inn, p.size) else if p.s.Ahead? then p.s.at else p.inn,
                  if p.r.Slotted? then FixqRun.Bump(p.out, p.size) else if p.r.Ahead? then p.r.at else p.out,
                  if Stock(p) < 0 then 0 else Stock(p), Seg(0, []), Seg(0, []))
  }

  /** Stored messages that were not fetched are in the ring in their order; each of them, and each
      free slot, belongs to a unit in a semaphore or to a thread. */
  predicate Inv(p: State) {
    && Stock(p) >= 0 && FixqRun.Ring(Whole(p), p.stored, p.fetched)
    && Left(p.s, p.inn, p.size) && Left(p.r, p.out, p.size)
    && Stock(p) == Done(p.s) + p.sendDone + p.recvUnits + p.recvHave + Held(p.r)
    && p.size == Stock(p) + p.sendUnits + p.sendHave + Held(p.s) + p.recvDone + Done(p.r)
  }

  lemma {:induction false} SlotsAreSafe(p: State, e: Event)
    requires Inv(p) && Enabled(p, e)
    ensures e.WriteSlot? ==> Stock(p) < p.size && p.inn < |p.buf|
    ensures e.FillSlot? ==> Stock(p) < p.size && p.s.at < |p.buf|
    ensures e.ReadSlot? ==> 0 < Stock(p) && p.out < |p.buf|
    ensures e.DrainSlot? ==> 0 < Stock(p) && p.r.at < |p.buf|
  {
  }

  lemma {:induction false} StoreStep(p: State, e: Event)
    requires Inv(p) && Enabled(p, e) && (e.WriteSlot? || e.FillSlot?)
    ensures Inv(Step(p, e))
  {
    hide FixqRun.Ring, FixqRun.Bump;
    SlotsAreSafe(p, e);
    var msg := if e.WriteSlot? then e.msg else p.s.msg;
    FixqRun.RingIn(Whole(p), p.stored, p.fetched, msg);
    assert Whole(Step(p, e)) == FixqRun.MovedIn(Whole(p), msg);
  }

  lemma {:induction false} FetchStep(p: State, e: Event)
    requires Inv(p) && Enabled(p, e) && (e.ReadSlot? || e.DrainSlot?)
    ensures Inv(Step(p, e))
  {
    hide FixqRun.Ring, FixqRun.Bump;
    SlotsAreSafe(p, e);
    FixqRun.RingOut(Whole(p), p.stored, p.fetched);
    assert Whole(Step(p, e)) == FixqRun.MovedOut(Whole(p));
  }

  lemma {:induction false} StepInv(p: State, e: Event)
    requires Inv(p) && Enabled(p, e)
    ensures Inv(Step(p, e))
  {
    hide FixqRun.Ring, FixqRun.Bump;
    if e.WriteSlot? || e.FillSlot? {
      StoreStep(p, e);
    } else if e.ReadSlot? || e.DrainSlot? {
      FetchStep(p, e);
    } else {
      assert Whole(Step(p, e)) == Whole(p);
    }
  }

  /** A sender keeps the message that it began with and stores it once; a receiver fetches the oldest
      message in the queue, and keeps it. */
  lemma {:induction false} OwnMessage(p: State, e: Event)
    requires Inv(p) && Enabled(p, e)
    ensures var n := Step(p, e);
            && (!n.s.Still? ==>
                  if e.WriteSlot? || e.BumpInFirst? then n.s.msg == e.msg else !p.s.Still? && n.s.msg == p.s.msg)
            && n.stored == p.stored + (if e.WriteSlot? then [e.msg] else if e.FillSlot? then [p.s.msg] else [])
    ensures var n := Step(p, e); var fetches := e.ReadSlot? || e.DrainSlot?;
            && (fetches ==> |p.fetched| < |p.stored| && n.r.Slotted? == e.ReadSlot? && !n.r.Still? &&
                            n.r.msg == p.stored[|p.fetched|])
            && (!fetches && !n.r.Still? && !n.r.Ahead? ==> !p.r.Still? && n.r.msg == p.r.msg)
            && n.fetched == p.fetched + (if fetches then [p.stored[|p.fetched|]] else [])
  {
    hide FixqRun.Ring, FixqRun.Bump;
    SlotsAreSafe(p, e);
    if e.ReadSlot? || e.DrainSlot? {
      OldestAt(Whole(p), p.stored, p.fetched);
    }
  }

  lemma {:induction false} OldestAt(q: FixqRun.Queue, stored: seq<Msg>, fetched: seq<Msg>)
    requires FixqRun.Ring(q, stored, fetched) && q.cnt > 0
    ensures |fetched| < |stored| && q.out < |q.buf| && q.buf[q.out] == stored[|fetched|]
  {
    assert q.buf[FixqRun.Slot(q.out, 0, q.size)] == stored[|fetched| + 0];
  }

  function Run(p: State, es: seq<Event>): (r: State)
    decreases |es|
  {
    if es == [] then p else Run(if Enabled(p, es[0]) then Step(p, es[0]) else p, es[1..])
  }

  lemma {:induction false} RunInv(p: State, es: seq<Event>)
    requires Inv(p)
    ensures Inv(Run(p, es))
    decreases |es|
  {
    hide Inv, Step;
    if es != [] {
      if Enabled(p, es[0]) {
        StepInv(p, es[0]);
        RunInv(Step(p, es[0]), es[1..]);
      } else {
        RunInv(p, es[1..]);
      }
    }
  }

  /** Over every run, wherever the accesses are interrupted: messages are fetched in the order in
      which they were stored, no unit is lost, and the queue never holds more than its size. */
  lemma {:induction false} PartsSafe(size: nat, es: seq<Event>)
    ensures var p := Run(Init(size), es);
            && |p.fetched| <= |p.stored| <= |p.fetched| + size && p.fetched == p.stored[..|p.fetched|]
            && p.sendUnits + p.sendHave + (if p.s.Still? then 0 else 1) + p.sendDone +
               p.recvUnits + p.recvHave + (if p.r.Still? then 0 else 1) + p.recvDone == size
  {
    hide Run, Inv;
    InitOk(size);
    RunInv(Init(size), es);
    RunSize(Init(size), es);
    InvFacts(Run(Init(size), es));
  }

  lemma {:induction false} InvFacts(p: State)
    requires Inv(p)
    ensures |p.fetched| <= |p.stored| <= |p.fetched| + p.size && p.fetched == p.stored[..|p.fetched|]
    ensures p.sendUnits + p.sendHave + (if p.s.Still? then 0 else 1) + p.sendDone +
            p.recvUnits + p.recvHave + (if p.r.Still? then 0 else 1) + p.recvDone == p.size
  {
    hide FixqRun.Slot, FixqRun.Bump;
  }

  lemma {:induction false} RunSize(p: State, es: seq<Event>)
    ensures Run(p, es).size == p.size
    decreases |es|
  {
    if es != [] {
      RunSize(if Enabled(p, es[0]) then Step(p, es[0]) else p, es[1..]);
    }
  }

  // ------------------------------------------------------------------ the count

  /** cnt is the number of messages, less those whose access has not counted them yet. */
  predicate Exact(p: State) {
    p.cnt == (|p.stored| - Done(p.s)) - (|p.fetched| - Done(p.r))
  }

  /** A thread stores cnt although the other side has stored it since the thread loaded it. */
  predicate Overlaps(p: State, e: Event) {
    (e.StoreIn? && p.s.Loaded? && p.s.seen > 0) || (e.StoreOut? && p.r.Loaded? && p.r.seen > 0)
  }

  /** As long as no updates overlapped, a value that was loaded is as old as the stores since. */
  predicate Tracked(p: State) {
    && Exact(p)
    && (p.s.Loaded? ==> p.cnt == p.s.c - p.s.seen)
    && (p.r.Loaded? ==> p.cnt == p.r.c + p.r.seen)
  }

  lemma {:induction false} InitOk(size: nat)
    ensures Inv(Init(size)) && Tracked(Init(size))
  {
  }

  lemma {:induction false} TrackedStep(p: State, e: Event)
    requires Inv(p) && Tracked(p) && Enabled(p, e)
    ensures Overlaps(p, e) ==> !Exact(Step(p, e))
    ensures !Overlaps(p, e) ==> Tracked(Step(p, e))
  {
    SlotsAreSafe(p, e);
  }

  /** cnt stays exact through a run if and only if no two updates of it overlap. */
  lemma {:induction false} ExactIff(p: State, es: seq<Event>)
    requires Inv(p) && Tracked(p)
    ensures (forall k :: 0 <= k <= |es| ==> Exact(Run(p, es[..k]))) <==>
            (forall k :: 0 <= k < |es| ==> !Overlaps(Run(p, es[..k]), es[k]))
    decreases |es|
  {
    hide Inv, Tracked, Exact, Overlaps, Step, Run;
    assert Exact(p) by { TrackedExact(p); }
    RunNone(p);
    if es == [] {
      assert forall k :: 0 <= k <= |es| ==> es[..k] == [];
    } else {
      var n := if Enabled(p, es[0]) then Step(p, es[0]) else p;
      Prefixes(p, es);
      if Overlaps(p, es[0]) {
        OverlapEnabled(p, es[0]);
        TrackedStep(p, es[0]);
        assert es[..0] == [] && !Exact(Run(p, es[..1]));
      } else {
        if Enabled(p, es[0]) {
          StepInv(p, es[0]);
          TrackedStep(p, es[0]);
        }
        ExactIff(n, es[1..]);
        Shifted(p, n, es);
      }
    }
  }

  lemma {:induction false} TrackedExact(p: State)
    requires Tracked(p)
    ensures Exact(p)
  {
  }

  lemma {:induction false} OverlapEnabled(p: State, e: Event)
    requires Overlaps(p, e)
    ensures Enabled(p, e)
  {
  }

  lemma {:induction false} RunNone(p: State)
    ensures Run(p, []) == p
  {
  }

  /** A prefix of the run is the first event and a prefix of the rest. */
  lemma {:induction false} Prefixes(p: State, es: seq<Event>)
    requires es != []
    ensures var n := if Enabled(p, es[0]) then Step(p, es[0]) else p;
            && (forall k :: 0 < k <= |es| ==> Run(p, es[..k]) == Run(n, es[1..][..k - 1]))
            && Run(p, es[..1]) == n
  {
    hide Step, Enabled;
    var n := if Enabled(p, es[0]) then Step(p, es[0]) else p;
    forall k | 0 < k <= |es| ensures Run(p, es[..k]) == Run(n, es[1..][..k - 1]) {
      assert es[..k][1..] == es[1..][..k - 1];
    }
    assert es[1..][..0] == [];
  }

  lemma {:induction false} Shifted(p: State, n: State, es: seq<Event>)
    requires es != [] && Exact(p) && !Overlaps(p, es[0]) && Run(p, []) == p
    requires forall k :: 0 < k <= |es| ==> Run(p, es[..k]) == Run(n, es[1..][..k - 1])
    ensures (forall k :: 0 <= k <= |es| ==> Exact(Run(p, es[..k]))) <==>
            (forall k :: 0 <= k <= |es[1..]| ==> Exact(Run(n, es[1..][..k])))
    ensures (forall k :: 0 <= k < |es| ==> !Overlaps(Run(p, es[..k]), es[k])) <==>
            (forall k :: 0 <= k < |es[1..]| ==> !Overlaps(Run(n, es[1..][..k]), es[1..][k]))
  {
    hide Exact, Overlaps, Run;
    assert es[..0] == [];
    var t := es[1..];
    assert forall k :: 0 <= k <= |t| ==> Run(p, es[..k + 1]) == Run(n, t[..k]);
    assert forall k :: 0 <= k < |t| ==> es[k + 1] == t[k];
    assert forall k :: 0 < k <= |es| ==> Run(p, es[..k]) == Run(n, t[..k - 1]);
  }

  /** From fixq_init on. */
  lemma {:induction false} ExactFromInit(size: nat, es: seq<Event>)
    ensures (forall k :: 0 <= k <= |es| ==> Exact(Run(Init(size), es[..k]))) <==>
            (forall k :: 0 <= k < |es| ==> !Overlaps(Run(Init(size), es[..k]), es[k]))
  {
    hide Inv, Tracked, Run, Exact, Overlaps, Init;
    InitOk(size);
    ExactIff(Init(size), es);
  }

  // ------------------------------------------------------------------ a count that goes wrong

  lemma {:induction false} RunHead(p: State, e: Event, es: seq<Event>, n: State)
    requires Enabled(p, e) && Step(p, e) == n
    ensures Run(p, [e] + es) == Run(n, es)
  {
    assert ([e] + es)[1..] == es;
  }

  lemma {:induction false} FirstStored(es: seq<Event>)
    ensures Run(State(2, [0, 0], 0, 0, 0, 2, 0, 0, 0, 0, 0, Still, Still, [], []),
                [TakeSend] + ([WriteSlot(5)] + ([BumpIn] + ([LoadIn] + ([StoreIn] + ([GiveRecv] + es)))))) ==
            Run(State(2, [5, 0], 1, 0, 1, 1, 0, 0, 1, 0, 0, Still, Still, [5], []), es)
  {
    hide Run;
    var p0 := State(2, [0, 0], 0, 0, 0, 2, 0, 0, 0, 0, 0, Still, Still, [], []);
    var p1 := State(2, [0, 0], 0, 0, 0, 1, 1, 0, 0, 0, 0, Still, Still, [], []);
    var p2 := State(2, [5, 0], 0, 0, 0, 1, 0, 0, 0, 0, 0, Slotted(5), Still, [5], []);
    var p3 := State(2, [5, 0], 1, 0, 0, 1, 0, 0, 0, 0, 0, Moved(5), Still, [5], []);
    var p4 := State(2, [5, 0], 1, 0, 0, 1, 0, 0, 0, 0, 0, Loaded(5, 0, 0), Still, [5], []);
    var p5 := State(2, [5, 0], 1, 0, 1, 1, 0, 1, 0, 0, 0, Still, Still, [5], []);
    var p6 := State(2, [5, 0], 1, 0, 1, 1, 0, 0, 1, 0, 0, Still, Still, [5], []);
    RunHead(p5, GiveRecv, es, p6);
    RunHead(p4, StoreIn, [GiveRecv] + es, p5);
    RunHead(p3, LoadIn, [StoreIn] + ([GiveRecv] + es), p4);
    RunHead(p2, BumpIn, [LoadIn] + ([StoreIn] + ([GiveRecv] + es)), p3);
    RunHead(p1, WriteSlot(5), [BumpIn] + ([LoadIn] + ([StoreIn] + ([GiveRecv] + es))), p2);
    RunHead(p0, TakeSend, [WriteSlot(5)] + ([BumpIn] + ([LoadIn] + ([StoreIn] + ([GiveRecv] + es)))), p1);
  }

  lemma {:induction false} FirstTaken(es: seq<Event>)
    ensures Run(State(2, [5, 0], 1, 0, 1, 1, 0, 0, 1, 0, 0, Still, Still, [5], []),
                [TakeRecv] + ([ReadSlot] + ([BumpOut] + ([LoadOut] + es)))) ==
            Run(State(2, [5, 0], 1, 1, 1, 1, 0, 0, 0, 0, 0, Still, Loaded(5, 1, 0), [5], [5]), es)
  {
    hide Run;
    var p6 := State(2, [5, 0], 1, 0, 1, 1, 0, 0, 1, 0, 0, Still, Still, [5], []);
    var p7 := State(2, [5, 0], 1, 0, 1, 1, 0, 0, 0, 1, 0, Still, Still, [5], []);
    var p8 := State(2, [5, 0], 1, 0, 1, 1, 0, 0, 0, 0, 0, Still, Slotted(5), [5], [5]);
    var p9 := State(2, [5, 0], 1, 1, 1, 1, 0, 0, 0, 0, 0, Still, Moved(5), [5], [5]);
    var p10 := State(2, [5, 0], 1, 1, 1, 1, 0, 0, 0, 0, 0, Still, Loaded(5, 1, 0), [5], [5]);
    RunHead(p9, LoadOut, es, p10);
    RunHead(p8, BumpOut, [LoadOut] + es, p9);
    RunHead(p7, ReadSlot, [BumpOut] + ([LoadOut] + es), p8);
    RunHead(p6, TakeRecv, [ReadSlot] + ([BumpOut] + ([LoadOut] + es)), p7);
  }

  lemma {:induction false} SecondStored(es: seq<Event>)
    ensures Run(State(2, [5, 0], 1, 1, 1, 1, 0, 0, 0, 0, 0, Still, Loaded(5, 1, 0), [5], [5]),
                [TakeSend] + ([WriteSlot(6)] + ([BumpIn] + ([LoadIn] + ([StoreIn] + es))))) ==
            Run(State(2, [5, 6], 0, 1, 2, 0, 0, 1, 0, 0, 0, Still, Loaded(5, 1, 1), [5, 6], [5]), es)
  {
    hide Run;
    var p10 := State(2, [5, 0], 1, 1, 1, 1, 0, 0, 0, 0, 0, Still, Loaded(5, 1, 0), [5], [5]);
    var p11 := State(2, [5, 0], 1, 1, 1, 0, 1, 0, 0, 0, 0, Still, Loaded(5, 1, 0), [5], [5]);
    var p12 := State(2, [5, 6], 1, 1, 1, 0, 0, 0, 0, 0, 0, Slotted(6), Loaded(5, 1, 0), [5, 6], [5]);
    var p13 := State(2, [5, 6], 0, 1, 1, 0, 0, 0, 0, 0, 0, Moved(6), Loaded(5, 1, 0), [5, 6], [5]);
    var p14 := State(2, [5, 6], 0, 1, 1, 0, 0, 0, 0, 0, 0, Loaded(6, 1, 0), Loaded(5, 1, 0), [5, 6], [5]);
    var p15 := State(2, [5, 6], 0, 1, 2, 0, 0, 1, 0, 0, 0, Still, Loaded(5, 1, 1), [5, 6], [5]);
    RunHead(p14, StoreIn, es, p15);
    RunHead(p13, LoadIn, [StoreIn] + es, p14);
    RunHead(p12, BumpIn, [LoadIn] + ([StoreIn] + es), p13);
    RunHead(p11, WriteSlot(6), [BumpIn] + ([LoadIn] + ([StoreIn] + es)), p12);
    RunHead(p10, TakeSend, [WriteSlot(6)] + ([BumpIn] + ([LoadIn] + ([StoreIn] + es))), p11);
  }

  lemma {:induction false} CountBack(es: seq<Event>)
    ensures Run(State(2, [5, 6], 0, 1, 2, 0, 0, 1, 0, 0, 0, Still, Loaded(5, 1, 1), [5, 6], [5]),
                [StoreOut] + es) ==
            Run(State(2, [5, 6], 0, 1, 0, 0, 0, 1, 0, 0, 1, Still, Still, [5, 6], [5]), es)
  {
    hide Run;
    var p15 := State(2, [5, 6], 0, 1, 2, 0, 0, 1, 0, 0, 0, Still, Loaded(5, 1, 1), [5, 6], [5]);
    var p16 := State(2, [5, 6], 0, 1, 0, 0, 0, 1, 0, 0, 1, Still, Still, [5, 6], [5]);
    RunHead(p15, StoreOut, es, p16);
  }

  /** It happens: a receiver has fetched the first message and loaded cnt when a sender stores
      another one. Nobody is inside an access any more, one message is in the queue, and cnt is 0:
      fixq_recv with tmo < 0 does not find it. */
  lemma {:induction false} CountLost() returns (es: seq<Event>)
    ensures var p := Run(Init(2), es); p.s == p.r == Still && |p.stored| == |p.fetched| + 1 && p.cnt == 0
  {
    hide Run;
    var tail := [StoreOut] + [];
    var mid := [TakeSend] + ([WriteSlot(6)] + ([BumpIn] + ([LoadIn] + ([StoreIn] + tail))));
    var late := [TakeRecv] + ([ReadSlot] + ([BumpOut] + ([LoadOut] + mid)));
    es := [TakeSend] + ([WriteSlot(5)] + ([BumpIn] + ([LoadIn] + ([StoreIn] + ([GiveRecv] + late)))));
    assert Init(2) == State(2, [0, 0], 0, 0, 0, 2, 0, 0, 0, 0, 0, Still, Still, [], []);
    FirstStored(late);
    FirstTaken(mid);
    SecondStored(tail);
    CountBack([]);
    RunNone(State(2, [5, 6], 0, 1, 0, 0, 0, 1, 0, 0, 1, Still, Still, [5, 6], [5]));
  }

  // ------------------------------------------------------------------ two threads on one side

  /** The queue after two senders were inside the access at once: both wrote the slot before either
      moved the index. */
  function Overrun(q: FixqRun.Queue, a: Msg, b: Msg): (r: FixqRun.Queue)
    requires q.inn < |q.buf|
  {
    var next := FixqRun.Bump(q.inn, q.size);
    q.(buf := q.buf[q.inn := a][q.inn := b], inn := FixqRun.Bump(next, q.size), cnt := q.cnt + 2)
  }

  lemma {:induction false} OverrunAt(q: FixqRun.Queue, stored: seq<Msg>, fetched: seq<Msg>, a: Msg, b: Msg, k: nat)
    requires FixqRun.Ring(q, stored, fetched) && q.cnt + 2 <= q.size && k < q.cnt + 2
    ensures var r := Overrun(q, a, b); var at := FixqRun.Slot(q.out, k, q.size);
            && r.inn == FixqRun.Slot(q.out, q.cnt + 2, q.size)
            && r.buf[at] == if k < q.cnt then stored[|fetched| + k]
                            else if k == q.cnt then b else q.buf[FixqRun.Bump(q.inn, q.size)]
  {
  }

  /** A message is lost. The ring holds both, in one order or the other, if and only if the slot
      that nobody wrote happened to hold it before. */
  lemma {:induction false} SendersOverlap(q: FixqRun.Queue, stored: seq<Msg>, fetched: seq<Msg>, a: Msg, b: Msg)
    requires FixqRun.Ring(q, stored, fetched) && q.cnt + 2 <= q.size
    ensures var r := Overrun(q, a, b); var left := q.buf[FixqRun.Bump(q.inn, q.size)];
            && (FixqRun.Ring(r, stored + [b, a], fetched) <==> left == a)
            && (FixqRun.Ring(r, stored + [a, b], fetched) <==> a == b == left)
  {
    hide FixqRun.Slot;
    var r := Overrun(q, a, b);
    forall k | 0 <= k < q.cnt + 2
      ensures r.inn == FixqRun.Slot(q.out, q.cnt + 2, q.size)
      ensures r.buf[FixqRun.Slot(q.out, k, q.size)] ==
              if k < q.cnt then stored[|fetched| + k] else if k == q.cnt then b else q.buf[FixqRun.Bump(q.inn, q.size)]
    {
      OverrunAt(q, stored, fetched, a, b, k);
    }
    assert r.buf[FixqRun.Slot(q.out, q.cnt, q.size)] == b;
    assert r.buf[FixqRun.Slot(q.out, q.cnt + 1, q.size)] == q.buf[FixqRun.Bump(q.inn, q.size)];
  }

  /** The queue after two receivers were inside the access at once: both read the slot before either
      moved the index. */
  function Underrun(q: FixqRun.Queue): (r: FixqRun.Queue)
    requires q.cnt >= 2
  {
    q.(out := FixqRun.Bump(FixqRun.Bump(q.out, q.size), q.size), cnt := q.cnt - 2)
  }

  /** A message is fetched twice and the next one by nobody: what was fetched is what was stored if
      and only if the two are equal. */
  lemma {:induction false} ReceiversOverlap(q: FixqRun.Queue, stored: seq<Msg>, fetched: seq<Msg>)
    requires FixqRun.Ring(q, stored, fetched) && q.cnt >= 2
    ensures q.out < |q.buf| && |fetched| + 1 < |stored|
    ensures var m := q.buf[q.out];
            FixqRun.Ring(Underrun(q), stored, fetched + [m, m]) <==> stored[|fetched| + 1] == m
  {
    FixqRun.RingOut(q, stored, fetched);
    var m, q1 := q.buf[q.out], FixqRun.MovedOut(q);
    FixqRun.RingOut(q1, stored, fetched + [m]);
    assert fetched + [m] + [m] == fetched + [m, m];
    assert FixqRun.MovedOut(q1) == Underrun(q);
    assert (fetched + [m])[|fetched|] == stored[|fetched|];
    hide FixqRun.Slot, FixqRun.Bump;
    var f := fetched + [m, m];
    assert f == stored[..|f|] ==> f[|fetched| + 1] == stored[|fetched| + 1];
    assert stored[|fetched| + 1] == q1.buf[q1.out];
  }
}
