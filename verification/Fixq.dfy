/** Every interleaving of senders and receivers on the bounded queue of kernel/net/fixq.c. */
module FixqRun {
  import opened Chunks
  import opened Segment

  type Msg = nat

  /** How far a thread is in fixq_send or fixq_recv. */
  datatype Pc =
    | Idle
    | SendWant(msg: Msg) | SendWait(msg: Msg) | SendHave(msg: Msg) | SendDone
    | RecvWant | RecvWait | RecvHave | RecvDone(msg: Msg)

  /** fixq_t. */
  datatype Queue = Queue(size: nat, buf: seq<Msg>, inn: nat, out: nat, cnt: nat, sendSem: Seg, recvSem: Seg)

  /** The queue, the threads, and the messages stored and fetched so far. */
  datatype State = State(q: Queue, pcs: seq<Pc>, stored: seq<Msg>, fetched: seq<Msg>)

  /** One step of thread `t`. Begin is the entry of the call with its fullness test, Take the
      segment_wait, Move the access to the ring, Give the segment_wakeup. */
  datatype Event =
    | BeginSend(t: Tid, msg: Msg, noWait: bool) | TakeSend(t: Tid) | MoveIn(t: Tid) | GiveRecv(t: Tid)
    | BeginRecv(t: Tid, noWait: bool) | TakeRecv(t: Tid) | MoveOut(t: Tid) | GiveSend(t: Tid)

  function Bump(i: nat, size: nat): (r: nat) {
    if i + 1 >= size then 0 else i + 1
  }

  predicate Enabled(s: State, e: Event) {
    && e.t < |s.pcs|
    && match e
       case BeginSend(t, _, _) => s.pcs[t].Idle?
       case TakeSend(t) => s.pcs[t].SendWant?
       case MoveIn(t) => s.pcs[t].SendHave?
       case GiveRecv(t) => s.pcs[t].SendDone?
       case BeginRecv(t, _) => s.pcs[t].Idle?
       case TakeRecv(t) => s.pcs[t].RecvWant?
       case MoveOut(t) => s.pcs[t].RecvHave?
       case GiveSend(t) => s.pcs[t].RecvDone?
  }

  /** A woken thread holds the unit it waited for. */
  function Release(pcs: seq<Pc>, w: Option<Tid>): (r: seq<Pc>)
    ensures |r| == |pcs|
  {
    if w.None? || w.value >= |pcs| then pcs
    else match pcs[w.value]
         case SendWait(msg) => pcs[w.value := SendHave(msg)]
         case RecvWait => pcs[w.value := RecvHave]
         case _ => pcs
  }

  function MovedIn(q: Queue, msg: Msg): (r: Queue)
    requires q.inn < |q.buf|
  {
    q.(buf := q.buf[q.inn := msg], inn := Bump(q.inn, q.size), cnt := q.cnt + 1)
  }

  function MovedOut(q: Queue): (r: Queue)
    requires q.cnt > 0
  {
    q.(out := Bump(q.out, q.size), cnt := q.cnt - 1)
  }

  /** The next state. MovesAreSafe shows that the two guards on the ring access never fail. */
  function Step(s: State, e: Event): (r: State)
    requires Enabled(s, e)
  {
    var q, pcs := s.q, s.pcs;
    match e
    case BeginSend(t, msg, noWait) =>
      if q.cnt >= q.size && noWait then s else s.(pcs := pcs[t := SendWant(msg)])
    case TakeSend(t) =>
      var pc := if q.sendSem.count > 0 then SendHave(pcs[t].msg) else SendWait(pcs[t].msg);
      s.(q := q.(sendSem := Wait(q.sendSem, t)), pcs := pcs[t := pc])
    case MoveIn(t) =>
      if q.inn >= |q.buf| then s else
      s.(q := MovedIn(q, pcs[t].msg), pcs := pcs[t := SendDone], stored := s.stored + [pcs[t].msg])
    case GiveRecv(t) =>
      s.(q := q.(recvSem := Wakeup(q.recvSem)), pcs := Release(pcs[t := Idle], Woken(q.recvSem)))
    case BeginRecv(t, noWait) =>
      if q.cnt == 0 && noWait then s else s.(pcs := pcs[t := RecvWant])
    case TakeRecv(t) =>
      var pc := if q.recvSem.count > 0 then RecvHave else RecvWait;
      s.(q := q.(recvSem := Wait(q.recvSem, t)), pcs := pcs[t := pc])
    case MoveOut(t) =>
      if q.out >= |q.buf| || q.cnt == 0 then s else
      var msg := q.buf[q.out];
      s.(q := MovedOut(q), pcs := pcs[t := RecvDone(msg)], fetched := s.fetched + [msg])
    case GiveSend(t) =>
      s.(q := q.(sendSem := Wakeup(q.sendSem)), pcs := Release(pcs[t := Idle], Woken(q.sendSem)))
  }

  /** fixq_init with `n` threads that are not in a call. */
  function Init(size: nat, n: nat): (r: State) {
    State(Queue(size, seq(size, i => 0), 0, 0, 0, Seg(size, []), Seg(0, [])), seq(n, i => Idle), [], [])
  }

  // ------------------------------------------------------------------ the invariant

  datatype Kind = Other | SHave | SDone | RHave | RDone

  function KindOf(pc: Pc): (r: Kind) {
    match pc
    case SendHave(_) => SHave
    case SendDone => SDone
    case RecvHave => RHave
    case RecvDone(_) => RDone
    case _ => Other
  }

  /** How many threads are at a point. */
  function Number(pcs: seq<Pc>, k: Kind): (r: nat) {
    if pcs == [] then 0 else (if KindOf(pcs[0]) == k then 1 else 0) + Number(pcs[1..], k)
  }

  lemma {:induction false} NumberUpdate(pcs: seq<Pc>, t: nat, pc: Pc, k: Kind)
    requires t < |pcs|
    ensures Number(pcs[t := pc], k) + (if KindOf(pcs[t]) == k then 1 else 0)
         == Number(pcs, k) + (if KindOf(pc) == k then 1 else 0)
  {
    if t == 0 {
      assert pcs[t := pc][1..] == pcs[1..];
    } else {
      NumberUpdate(pcs[1..], t - 1, pc, k);
      assert pcs[t := pc][1..] == pcs[1..][t - 1 := pc];
    }
  }

  /** The ring index `k` places behind `out`. */
  function Slot(out: nat, k: nat, size: nat): (r: nat)
    requires out < size && k <= size
    ensures r < size
  {
    if out + k < size then out + k else out + k - size
  }

  /** The stored messages that were not fetched yet are in the ring, oldest at `out`. */
  predicate Ring(q: Queue, stored: seq<Msg>, fetched: seq<Msg>) {
    && |q.buf| == q.size && q.cnt <= q.size && |fetched| + q.cnt == |stored|
    && fetched == stored[..|fetched|]
    && (q.size == 0 || (q.out < q.size && q.inn == Slot(q.out, q.cnt, q.size)
        && forall k :: 0 <= k < q.cnt ==> q.buf[Slot(q.out, k, q.size)] == stored[|fetched| + k]))
  }

  /** Every stored item and every free slot is accounted for by a unit in a semaphore or by a
      thread between taking one unit and giving the other. */
  predicate Units(q: Queue, pcs: seq<Pc>) {
    && q.cnt == q.recvSem.count + Number(pcs, RHave) + Number(pcs, SDone)
    && q.size == q.cnt + q.sendSem.count + Number(pcs, SHave) + Number(pcs, RDone)
  }

  /** A semaphore's queue holds exactly the threads that wait for it, each once, and nobody
      waits while units are free. */
  predicate Queued(sem: Seg, pcs: seq<Pc>, send: bool) {
    && (sem.count > 0 ==> sem.waiters == [])
    && (forall i :: 0 <= i < |sem.waiters| ==>
          sem.waiters[i] < |pcs| && if send then pcs[sem.waiters[i]].SendWait? else pcs[sem.waiters[i]].RecvWait?)
    && (forall i, j :: 0 <= i < j < |sem.waiters| ==> sem.waiters[i] != sem.waiters[j])
    && (forall t :: 0 <= t < |pcs| && (if send then pcs[t].SendWait? else pcs[t].RecvWait?) ==> t in sem.waiters)
  }

  predicate Inv(s: State) {
    && Ring(s.q, s.stored, s.fetched) && Units(s.q, s.pcs)
    && Queued(s.q.sendSem, s.pcs, true) && Queued(s.q.recvSem, s.pcs, false)
  }

  lemma {:induction false} InitInv(size: nat, n: nat)
    ensures Inv(Init(size, n))
  {
    var pcs := Init(size, n).pcs;
    NumberIdle(pcs, SHave);
    NumberIdle(pcs, SDone);
    NumberIdle(pcs, RHave);
    NumberIdle(pcs, RDone);
  }

  lemma {:induction false} NumberIdle(pcs: seq<Pc>, k: Kind)
    requires k != Other && forall i :: 0 <= i < |pcs| ==> pcs[i].Idle?
    ensures Number(pcs, k) == 0
  {
    if pcs != [] {
      NumberIdle(pcs[1..], k);
    }
  }

  lemma {:induction false} NumberPositive(pcs: seq<Pc>, t: nat)
    requires t < |pcs|
    ensures Number(pcs, KindOf(pcs[t])) > 0
  {
    if t > 0 {
      NumberPositive(pcs[1..], t - 1);
    }
  }

  /** A sender that holds a unit finds a free slot, a receiver that holds one finds an item. */
  lemma {:induction false} MovesAreSafe(s: State, e: Event)
    requires Inv(s) && Enabled(s, e)
    ensures e.MoveIn? ==> s.q.cnt < s.q.size && s.q.inn < |s.q.buf|
    ensures e.MoveOut? ==> 0 < s.q.cnt && s.q.out < |s.q.buf|
  {
    NumberPositive(s.pcs, e.t);
  }

  // ------------------------------------------------------------------ every step keeps it

  lemma {:induction false} RingIn(q: Queue, stored: seq<Msg>, fetched: seq<Msg>, msg: Msg)
    requires Ring(q, stored, fetched) && q.cnt < q.size
    ensures Ring(MovedIn(q, msg), stored + [msg], fetched)
  {
    var r := MovedIn(q, msg);
    forall k | 0 <= k < r.cnt ensures r.buf[Slot(r.out, k, r.size)] == (stored + [msg])[|fetched| + k] {
      if k < q.cnt {
        assert q.buf[Slot(q.out, k, q.size)] == stored[|fetched| + k];
      }
    }
  }

  lemma {:induction false} RingOut(q: Queue, stored: seq<Msg>, fetched: seq<Msg>)
    requires Ring(q, stored, fetched) && 0 < q.cnt
    ensures q.out < |q.buf| && Ring(MovedOut(q), stored, fetched + [q.buf[q.out]])
  {
    var r, f := MovedOut(q), fetched + [q.buf[q.out]];
    assert q.buf[Slot(q.out, 0, q.size)] == stored[|fetched|];
    forall k | 0 <= k < r.cnt ensures r.buf[Slot(r.out, k, r.size)] == stored[|f| + k] {
      assert Slot(r.out, k, r.size) == Slot(q.out, k + 1, q.size);
      assert q.buf[Slot(q.out, k + 1, q.size)] == stored[|fetched| + (k + 1)];
    }
  }

  predicate Waits(pc: Pc, send: bool) {
    if send then pc.SendWait? else pc.RecvWait?
  }

  lemma {:induction false} QueuedOther(sem: Seg, pcs: seq<Pc>, t: nat, pc: Pc, send: bool)
    requires Queued(sem, pcs, send) && t < |pcs| && !Waits(pcs[t], send) && !Waits(pc, send)
    ensures Queued(sem, pcs[t := pc], send)
  {
  }

  lemma {:induction false} QueuedWait(sem: Seg, pcs: seq<Pc>, t: nat, pc: Pc, send: bool)
    requires Queued(sem, pcs, send) && t < |pcs| && !Waits(pcs[t], send) && Waits(pc, send) == (sem.count == 0)
    ensures Queued(Wait(sem, t), pcs[t := pc], send)
  {
    var w := Wait(sem, t);
    if sem.count == 0 {
      assert w.waiters[|w.waiters| - 1] == t;
      assert t !in sem.waiters;
    }
  }

  lemma {:induction false} QueuedWakeup(sem: Seg, pcs: seq<Pc>, send: bool)
    requires Queued(sem, pcs, send)
    ensures Queued(Wakeup(sem), Release(pcs, Woken(sem)), send)
    ensures forall t :: 0 <= t < |pcs| ==> Waits(Release(pcs, Woken(sem))[t], !send) == Waits(pcs[t], !send)
  {
    var w, pcs' := Wakeup(sem), Release(pcs, Woken(sem));
    if sem.waiters != [] {
      forall t | 0 <= t < |pcs'| && Waits(pcs'[t], send) ensures t in w.waiters {
        assert t in sem.waiters && t != sem.waiters[0];
        var i :| 0 <= i < |sem.waiters| && sem.waiters[i] == t;
        assert w.waiters[i - 1] == t;
      }
    }
  }

  lemma {:induction false} QueuedSameWaits(sem: Seg, pcs: seq<Pc>, pcs': seq<Pc>, send: bool)
    requires Queued(sem, pcs, send) && |pcs'| == |pcs|
    requires forall t :: 0 <= t < |pcs| ==> Waits(pcs'[t], send) == Waits(pcs[t], send)
    ensures Queued(sem, pcs', send)
  {
    forall i | 0 <= i < |sem.waiters| ensures Waits(pcs'[sem.waiters[i]], send) {
      assert Waits(pcs[sem.waiters[i]], send);
    }
  }

  /** Updating the point of one thread. */
  lemma {:induction false} CountMoves(pcs: seq<Pc>, t: nat, pc: Pc)
    requires t < |pcs|
    ensures forall k: Kind :: Number(pcs[t := pc], k) ==
              Number(pcs, k) - (if KindOf(pcs[t]) == k then 1 else 0) + (if KindOf(pc) == k then 1 else 0)
  {
    forall k: Kind ensures Number(pcs[t := pc], k) ==
        Number(pcs, k) - (if KindOf(pcs[t]) == k then 1 else 0) + (if KindOf(pc) == k then 1 else 0)
    {
      NumberUpdate(pcs, t, pc, k);
    }
  }

  /** Handing a unit on: it goes to the first waiter or into the count. */
  lemma {:induction false} CountWakeup(sem: Seg, pcs: seq<Pc>, send: bool)
    requires Queued(sem, pcs, send)
    ensures var pcs' := Release(pcs, Woken(sem));
            && (forall k: Kind :: k != SHave && k != RHave ==> k == Other || Number(pcs', k) == Number(pcs, k))
            && Number(pcs', if send then RHave else SHave) == Number(pcs, if send then RHave else SHave)
            && Wakeup(sem).count + Number(pcs', if send then SHave else RHave)
               == sem.count + Number(pcs, if send then SHave else RHave) + 1
  {
    if sem.waiters != [] {
      var w := sem.waiters[0];
      assert Waits(pcs[w], send);
      CountMoves(pcs, w, if send then SendHave(pcs[w].msg) else RecvHave);
    }
  }

  lemma {:induction false} StepTakeSend(s: State, t: Tid)
    requires Inv(s) && Enabled(s, TakeSend(t))
    ensures Inv(Step(s, TakeSend(t)))
  {
    hide Number, Ring, Queued;
    var pc := Step(s, TakeSend(t)).pcs[t];
    CountMoves(s.pcs, t, pc);
    QueuedWait(s.q.sendSem, s.pcs, t, pc, true);
    QueuedOther(s.q.recvSem, s.pcs, t, pc, false);
    RingFields(s.q, Step(s, TakeSend(t)).q, s.stored, s.fetched);
  }

  lemma {:induction false} RingFields(q: Queue, r: Queue, stored: seq<Msg>, fetched: seq<Msg>)
    requires Ring(q, stored, fetched) && r.size == q.size && r.buf == q.buf && r.inn == q.inn && r.out == q.out &&
             r.cnt == q.cnt
    ensures Ring(r, stored, fetched)
  {
  }

  lemma {:induction false} StepTakeRecv(s: State, t: Tid)
    requires Inv(s) && Enabled(s, TakeRecv(t))
    ensures Inv(Step(s, TakeRecv(t)))
  {
    hide Number, Ring, Queued;
    var pc := Step(s, TakeRecv(t)).pcs[t];
    CountMoves(s.pcs, t, pc);
    QueuedWait(s.q.recvSem, s.pcs, t, pc, false);
    QueuedOther(s.q.sendSem, s.pcs, t, pc, true);
    RingFields(s.q, Step(s, TakeRecv(t)).q, s.stored, s.fetched);
  }

  lemma {:induction false} StepBegin(s: State, e: Event)
    requires Inv(s) && Enabled(s, e) && (e.BeginSend? || e.BeginRecv?)
    ensures Inv(Step(s, e))
  {
    hide Number, Ring, Queued;
    var pc := if e.BeginSend? then SendWant(e.msg) else RecvWant;
    CountMoves(s.pcs, e.t, pc);
    QueuedOther(s.q.sendSem, s.pcs, e.t, pc, true);
    QueuedOther(s.q.recvSem, s.pcs, e.t, pc, false);
  }

  lemma {:induction false} StepMove(s: State, e: Event)
    requires Inv(s) && Enabled(s, e) && (e.MoveIn? || e.MoveOut?)
    ensures Inv(Step(s, e))
  {
    hide Number, Ring, Queued;
    MovesAreSafe(s, e);
    if e.MoveIn? {
      RingIn(s.q, s.stored, s.fetched, s.pcs[e.t].msg);
    } else {
      RingOut(s.q, s.stored, s.fetched);
    }
    var pc := Step(s, e).pcs[e.t];
    CountMoves(s.pcs, e.t, pc);
    QueuedOther(s.q.sendSem, s.pcs, e.t, pc, true);
    QueuedOther(s.q.recvSem, s.pcs, e.t, pc, false);
  }

  lemma {:induction false} StepGive(s: State, e: Event)
    requires Inv(s) && Enabled(s, e) && (e.GiveRecv? || e.GiveSend?)
    ensures Inv(Step(s, e))
  {
    hide Number, Ring, Queued;
    var send := e.GiveSend?;
    var sem, pcs := if send then s.q.sendSem else s.q.recvSem, s.pcs[e.t := Idle];
    CountMoves(s.pcs, e.t, Idle);
    QueuedOther(s.q.sendSem, s.pcs, e.t, Idle, true);
    QueuedOther(s.q.recvSem, s.pcs, e.t, Idle, false);
    CountWakeup(sem, pcs, send);
    QueuedWakeup(sem, pcs, send);
    QueuedSameWaits(if send then s.q.recvSem else s.q.sendSem, pcs, Release(pcs, Woken(sem)), !send);
    RingFields(s.q, Step(s, e).q, s.stored, s.fetched);
  }

  lemma {:induction false} StepInv(s: State, e: Event)
    requires Inv(s) && Enabled(s, e)
    ensures Inv(Step(s, e))
  {
    hide Inv, Step;
    match e {
      case BeginSend(_, _, _) => StepBegin(s, e);
      case TakeSend(t) => StepTakeSend(s, t);
      case MoveIn(_) => StepMove(s, e);
      case GiveRecv(_) => StepGive(s, e);
      case BeginRecv(_, _) => StepBegin(s, e);
      case TakeRecv(t) => StepTakeRecv(s, t);
      case MoveOut(_) => StepMove(s, e);
      case GiveSend(_) => StepGive(s, e);
    }
  }

  // ------------------------------------------------------------------ whole runs

  /** Any sequence of events; an event of a thread that is not at that point does nothing. */
  function Run(s: State, es: seq<Event>): (r: State)
    decreases |es|
  {
    if es == [] then s
    else Run(if Enabled(s, es[0]) then Step(s, es[0]) else s, es[1..])
  }

  lemma {:induction false} RunInv(s: State, es: seq<Event>)
    requires Inv(s)
    ensures Inv(Run(s, es))
    decreases |es|
  {
    hide Inv, Step;
    if es != [] {
      if Enabled(s, es[0]) {
        StepInv(s, es[0]);
        RunInv(Step(s, es[0]), es[1..]);
      } else {
        RunInv(s, es[1..]);
      }
    }
  }

  function InFlight(pcs: seq<Pc>): (r: nat) {
    Number(pcs, SHave) + Number(pcs, SDone) + Number(pcs, RHave) + Number(pcs, RDone)
  }

  function Reached(size: nat, n: nat, es: seq<Event>): (r: State) {
    Run(Init(size, n), es)
  }

  lemma {:induction false} RunKeepsSize(s: State, es: seq<Event>)
    ensures Run(s, es).q.size == s.q.size && |Run(s, es).pcs| == |s.pcs|
    decreases |es|
  {
    if es != [] {
      RunKeepsSize(if Enabled(s, es[0]) then Step(s, es[0]) else s, es[1..]);
    }
  }

  /** Every run of every number of senders and receivers: units and operations under way add up
      to the size of the queue, never more items than slots, and messages come out in the order
      in which they went in, none lost and none twice. */
  lemma {:induction false} QueueSafe(size: nat, n: nat, es: seq<Event>)
    ensures var s := Reached(size, n, es);
            && s.q.sendSem.count + s.q.recvSem.count + InFlight(s.pcs) == size
            && s.q.cnt <= size && |s.fetched| + s.q.cnt == |s.stored|
            && s.fetched == s.stored[..|s.fetched|]
            && (s.q.sendSem.count > 0 ==> s.q.sendSem.waiters == [])
            && (s.q.recvSem.count > 0 ==> s.q.recvSem.waiters == [])
            && forall t :: 0 <= t < |s.pcs| ==>
                 && (s.pcs[t].SendHave? ==> s.q.cnt < size && s.q.inn < |s.q.buf|)
                 && (s.pcs[t].RecvHave? ==> 0 < s.q.cnt && s.q.out < |s.q.buf|)
  {
    hide Number, Run;
    InitInv(size, n);
    RunInv(Init(size, n), es);
    RunKeepsSize(Init(size, n), es);
    var s := Reached(size, n, es);
    forall t | 0 <= t < |s.pcs| && (s.pcs[t].SendHave? || s.pcs[t].RecvHave?)
      ensures s.pcs[t].SendHave? ==> s.q.cnt < size && s.q.inn < |s.q.buf|
      ensures s.pcs[t].RecvHave? ==> 0 < s.q.cnt && s.q.out < |s.q.buf|
    {
      MovesAreSafe(s, if s.pcs[t].SendHave? then MoveIn(t) else MoveOut(t));
    }
  }

  /** The entry of fixq_send and fixq_recv, over every run. A send that must not wait is refused, and
      changes nothing, if and only if the queue holds as many messages as it has slots; every other
      send goes on to take a unit. A receive that must not wait is refused if and only if every
      message stored has been fetched. */
  lemma {:induction false} RefusedIff(size: nat, n: nat, es: seq<Event>, t: Tid, msg: Msg, noWait: bool)
    requires t < n
    ensures var s := Reached(size, n, es);
            && |s.pcs| == n
            && (s.pcs[t].Idle? ==>
                  var r := Step(s, BeginSend(t, msg, noWait));
                  && (r.pcs[t].Idle? <==> noWait && |s.stored| == |s.fetched| + size)
                  && (r.pcs[t].Idle? ==> r == s)
                  && (!r.pcs[t].Idle? ==> r == s.(pcs := s.pcs[t := SendWant(msg)])))
            && (s.pcs[t].Idle? ==>
                  var r := Step(s, BeginRecv(t, noWait));
                  && (r.pcs[t].Idle? <==> noWait && |s.stored| == |s.fetched|)
                  && (r.pcs[t].Idle? ==> r == s)
                  && (!r.pcs[t].Idle? ==> r == s.(pcs := s.pcs[t := RecvWant])))
  {
    hide Number, Run;
    QueueSafe(size, n, es);
    RunKeepsSize(Init(size, n), es);
  }

  // ------------------------------------------------------------------ whose message

  /** The message of the last call of fixq_send by thread `t`. */
  function LastSent(s: State, es: seq<Event>, t: Tid, m: Msg): (r: Msg)
    decreases |es|
  {
    if es == [] then m
    else if !Enabled(s, es[0]) then LastSent(s, es[1..], t, m)
    else LastSent(Step(s, es[0]), es[1..], t, if es[0].BeginSend? && es[0].t == t then es[0].msg else m)
  }

  /** The message that the last fetch by thread `t` found: the oldest one in the queue then. */
  function LastFound(s: State, es: seq<Event>, t: Tid, m: Msg): (r: Msg)
    decreases |es|
  {
    if es == [] then m
    else if !Enabled(s, es[0]) then LastFound(s, es[1..], t, m)
    else LastFound(Step(s, es[0]), es[1..], t,
                   if es[0] == MoveOut(t) && |s.fetched| < |s.stored| then s.stored[|s.fetched|] else m)
  }

  /** A thread under way in fixq_send still has its message, and one in fixq_recv what it found. */
  predicate Keeps(pc: Pc, sent: Msg, found: Msg) {
    && (pc.SendWant? || pc.SendWait? || pc.SendHave? ==> pc.msg == sent)
    && (pc.RecvDone? ==> pc.msg == found)
  }

  lemma {:induction false} KeepsStep(s: State, e: Event, t: Tid, sent: Msg, found: Msg)
    requires Inv(s) && Enabled(s, e) && t < |s.pcs| && Keeps(s.pcs[t], sent, found)
    ensures t < |Step(s, e).pcs|
    ensures Keeps(Step(s, e).pcs[t], if e.BeginSend? && e.t == t then e.msg else sent,
                  if e == MoveOut(t) && |s.fetched| < |s.stored| then s.stored[|s.fetched|] else found)
  {
    hide Number;
    MovesAreSafe(s, e);
    if e.MoveOut? {
      RingOut(s.q, s.stored, s.fetched);
      assert (s.fetched + [s.q.buf[s.q.out]])[|s.fetched|] == s.stored[|s.fetched|];
    }
  }

  lemma {:induction false} KeepsRun(s: State, es: seq<Event>, t: Tid, sent: Msg, found: Msg)
    requires Inv(s) && t < |s.pcs| && Keeps(s.pcs[t], sent, found)
    ensures var r := Run(s, es);
            t < |r.pcs| && Keeps(r.pcs[t], LastSent(s, es, t, sent), LastFound(s, es, t, found))
    decreases |es|
  {
    hide Inv, Step, Keeps, Enabled;
    if es != [] {
      if Enabled(s, es[0]) {
        StepInv(s, es[0]);
        KeepsStep(s, es[0], t, sent, found);
        KeepsRun(Step(s, es[0]), es[1..], t, if es[0].BeginSend? && es[0].t == t then es[0].msg else sent,
                 if es[0] == MoveOut(t) && |s.fetched| < |s.stored| then s.stored[|s.fetched|] else found);
      } else {
        KeepsRun(s, es[1..], t, sent, found);
      }
    }
  }

  /** Over every run: what a thread stores is the message that it called fixq_send with; what it
      fetches is the oldest message in the queue, and that is what fixq_recv returns to it. */
  lemma {:induction false} OwnMessage(size: nat, n: nat, es: seq<Event>, t: Tid)
    requires t < n
    ensures var s := Reached(size, n, es);
            && |s.pcs| == n
            && (Enabled(s, MoveIn(t)) ==>
                  Step(s, MoveIn(t)).stored == s.stored + [LastSent(Init(size, n), es, t, 0)])
            && (Enabled(s, MoveOut(t)) ==>
                  |s.fetched| < |s.stored| && Step(s, MoveOut(t)).fetched == s.fetched + [s.stored[|s.fetched|]])
            && (s.pcs[t].RecvDone? ==> s.pcs[t].msg == LastFound(Init(size, n), es, t, 0))
  {
    hide Number, Run, LastSent, LastFound;
    InitInv(size, n);
    RunInv(Init(size, n), es);
    RunKeepsSize(Init(size, n), es);
    KeepsRun(Init(size, n), es, t, 0, 0);
    var s := Reached(size, n, es);
    if Enabled(s, MoveOut(t)) {
      MovesAreSafe(s, MoveOut(t));
      RingOut(s.q, s.stored, s.fetched);
      assert (s.fetched + [s.q.buf[s.q.out]])[|s.fetched|] == s.stored[|s.fetched|];
    }
    if Enabled(s, MoveIn(t)) {
      MovesAreSafe(s, MoveIn(t));
    }
  }

  /** No lost wakeup: when no operation is under way, a sender waits only for a full queue and a
      receiver only for an empty one, so both can wait only for a queue without slots. */
  lemma {:induction false} NoLostWakeup(size: nat, n: nat, es: seq<Event>, t: nat)
    requires t < n && InFlight(Reached(size, n, es).pcs) == 0
    ensures var s := Reached(size, n, es);
            && |s.pcs| == n
            && (s.pcs[t].SendWait? ==> s.q.cnt == size)
            && (s.pcs[t].RecvWait? ==> s.q.cnt == 0)
  {
    hide Number, Run;
    InitInv(size, n);
    RunInv(Init(size, n), es);
    RunKeepsSize(Init(size, n), es);
  }

  lemma {:induction false} ReleaseOther(pcs: seq<Pc>, w: Option<Tid>, t: nat)
    requires t < |pcs| && (pcs[t].SendWant? || pcs[t].RecvWant?)
    ensures Release(pcs, w)[t] == pcs[t]
  {
  }

  /** A thread between its test and its segment_wait stays there, whatever the others do. */
  lemma {:induction false} OthersStep(s: State, e: Event, t: Tid)
    requires Enabled(s, e) && e.t != t && t < |s.pcs| && (s.pcs[t].SendWant? || s.pcs[t].RecvWant?)
    ensures t < |Step(s, e).pcs| && Step(s, e).pcs[t] == s.pcs[t]
  {
    hide Release;
    ReleaseOther(s.pcs[e.t := Idle], Woken(s.q.recvSem), t);
    ReleaseOther(s.pcs[e.t := Idle], Woken(s.q.sendSem), t);
  }

  lemma {:induction false} OthersRun(s: State, es: seq<Event>, t: Tid)
    requires Inv(s) && t < |s.pcs| && (s.pcs[t].SendWant? || s.pcs[t].RecvWant?)
    requires forall i :: 0 <= i < |es| ==> es[i].t != t
    ensures var r := Run(s, es); Inv(r) && t < |r.pcs| && r.pcs[t] == s.pcs[t]
    decreases |es|
  {
    hide Inv, Step;
    if es != [] {
      if Enabled(s, es[0]) {
        StepInv(s, es[0]);
        OthersStep(s, es[0], t);
        OthersRun(Step(s, es[0]), es[1..], t);
      } else {
        OthersRun(s, es[1..], t);
      }
    }
  }

  /** fixq_send with tmo < 0 is meant not to wait. Having passed its fullness test, whatever other
      threads do before it takes its unit, it does wait exactly when every free slot is then claimed
      by an operation under way. */
  lemma {:induction false} NonBlockingSendWaitsIff(s: State, t: Tid, msg: Msg, es: seq<Event>)
    requires Inv(s) && Enabled(s, BeginSend(t, msg, true)) && s.q.cnt < s.q.size
    requires forall i :: 0 <= i < |es| ==> es[i].t != t
    ensures var r := Run(Step(s, BeginSend(t, msg, true)), es);
            && Enabled(r, TakeSend(t))
            && (Step(r, TakeSend(t)).pcs[t].SendWait? <==>
                  Number(r.pcs, SHave) + Number(r.pcs, RDone) == r.q.size - r.q.cnt)
  {
    hide Number, Run;
    StepInv(s, BeginSend(t, msg, true));
    OthersRun(Step(s, BeginSend(t, msg, true)), es, t);
  }

  /** And fixq_recv with tmo < 0 waits exactly when every item is claimed. */
  lemma {:induction false} NonBlockingRecvWaitsIff(s: State, t: Tid, es: seq<Event>)
    requires Inv(s) && Enabled(s, BeginRecv(t, true)) && s.q.cnt > 0
    requires forall i :: 0 <= i < |es| ==> es[i].t != t
    ensures var r := Run(Step(s, BeginRecv(t, true)), es);
            && Enabled(r, TakeRecv(t))
            && (Step(r, TakeRecv(t)).pcs[t].RecvWait? <==> Number(r.pcs, RHave) + Number(r.pcs, SDone) == r.q.cnt)
  {
    hide Number, Run;
    StepInv(s, BeginRecv(t, true));
    OthersRun(Step(s, BeginRecv(t, true)), es, t);
  }

  lemma {:induction false} RunHead(s: State, e: Event, es: seq<Event>, r: State)
    requires Enabled(s, e) && Step(s, e) == r
    ensures Run(s, [e] + es) == Run(r, es)
  {
    assert ([e] + es)[1..] == es;
  }

  /** A queue with one slot and two threads. */
  function One(v: Msg, cnt: nat, send: Seg, recv: Seg, p: Pc, q: Pc, stored: seq<Msg>, fetched: seq<Msg>): (r: State) {
    State(Queue(1, [v], 0, 0, cnt, send, recv), [p, q], stored, fetched)
  }

  /** Two events in a row. */
  lemma {:induction false} RunTwo(s: State, e: Event, s': State, f: Event, s'': State, es: seq<Event>)
    requires Enabled(s, e) && Step(s, e) == s' && Enabled(s', f) && Step(s', f) == s''
    ensures Run(s, [e, f] + es) == Run(s'', es)
  {
    hide Step, Enabled;
    RunHead(s, e, [f] + es, s');
    assert [e] + ([f] + es) == [e, f] + es;
    RunHead(s', f, es, s'');
  }

  lemma {:induction false} FirstSends(es: seq<Event>)
    ensures Run(One(0, 0, Seg(1, []), Seg(0, []), Idle, Idle, [], []), [BeginSend(0, 5, false), TakeSend(0)] + es) ==
            Run(One(0, 0, Seg(0, []), Seg(0, []), SendHave(5), Idle, [], []), es)
  {
    hide Run;
    RunTwo(One(0, 0, Seg(1, []), Seg(0, []), Idle, Idle, [], []), BeginSend(0, 5, false),
           One(0, 0, Seg(1, []), Seg(0, []), SendWant(5), Idle, [], []), TakeSend(0),
           One(0, 0, Seg(0, []), Seg(0, []), SendHave(5), Idle, [], []), es);
  }

  lemma {:induction false} FirstStores(es: seq<Event>)
    ensures Run(One(0, 0, Seg(0, []), Seg(0, []), SendHave(5), Idle, [], []), [MoveIn(0), GiveRecv(0)] + es) ==
            Run(One(5, 1, Seg(0, []), Seg(1, []), Idle, Idle, [5], []), es)
  {
    hide Run;
    RunTwo(One(0, 0, Seg(0, []), Seg(0, []), SendHave(5), Idle, [], []), MoveIn(0),
           One(5, 1, Seg(0, []), Seg(0, []), SendDone, Idle, [5], []), GiveRecv(0),
           One(5, 1, Seg(0, []), Seg(1, []), Idle, Idle, [5], []), es);
  }

  lemma {:induction false} SecondWaits(es: seq<Event>)
    ensures Run(One(5, 1, Seg(0, []), Seg(1, []), Idle, Idle, [5], []), [BeginSend(1, 6, false), TakeSend(1)] + es) ==
            Run(One(5, 1, Seg(0, [1]), Seg(1, []), Idle, SendWait(6), [5], []), es)
  {
    hide Run;
    RunTwo(One(5, 1, Seg(0, []), Seg(1, []), Idle, Idle, [5], []), BeginSend(1, 6, false),
           One(5, 1, Seg(0, []), Seg(1, []), Idle, SendWant(6), [5], []), TakeSend(1),
           One(5, 1, Seg(0, [1]), Seg(1, []), Idle, SendWait(6), [5], []), es);
  }

  lemma {:induction false} UnitTaken(es: seq<Event>)
    ensures Run(One(5, 1, Seg(0, [1]), Seg(1, []), Idle, SendWait(6), [5], []),
                [BeginRecv(0, false), TakeRecv(0)] + es) ==
            Run(One(5, 1, Seg(0, [1]), Seg(0, []), RecvHave, SendWait(6), [5], []), es)
  {
    hide Run;
    RunTwo(One(5, 1, Seg(0, [1]), Seg(1, []), Idle, SendWait(6), [5], []), BeginRecv(0, false),
           One(5, 1, Seg(0, [1]), Seg(1, []), RecvWant, SendWait(6), [5], []), TakeRecv(0),
           One(5, 1, Seg(0, [1]), Seg(0, []), RecvHave, SendWait(6), [5], []), es);
  }

  lemma {:induction false} HandedOver(es: seq<Event>)
    ensures Run(One(5, 1, Seg(0, [1]), Seg(0, []), RecvHave, SendWait(6), [5], []), [MoveOut(0), GiveSend(0)] + es) ==
            Run(One(5, 0, Seg(0, []), Seg(0, []), Idle, SendHave(6), [5], [5]), es)
  {
    hide Run;
    RunTwo(One(5, 1, Seg(0, [1]), Seg(0, []), RecvHave, SendWait(6), [5], []), MoveOut(0),
           One(5, 0, Seg(0, [1]), Seg(0, []), RecvDone(5), SendWait(6), [5], [5]), GiveSend(0),
           One(5, 0, Seg(0, []), Seg(0, []), Idle, SendHave(6), [5], [5]), es);
  }

  /** It happens: with one slot, thread 0 stores a message, thread 1 has to wait, and thread 0
      fetches the message, which hands its unit to thread 1. Now the queue is empty, and a send
      with tmo < 0 passes the fullness test and waits. */
  lemma {:induction false} NonBlockingSendCanWait()
    ensures var es := [BeginSend(0, 5, false), TakeSend(0)] + ([MoveIn(0), GiveRecv(0)] +
                      ([BeginSend(1, 6, false), TakeSend(1)] + ([BeginRecv(0, false), TakeRecv(0)] +
                      ([MoveOut(0), GiveSend(0)] + []))));
            var s := Reached(1, 2, es);
            && s.q.cnt == 0 < s.q.size && |s.pcs| == 2 && s.pcs[0].Idle?
            && Step(Step(s, BeginSend(0, 9, true)), TakeSend(0)).pcs[0].SendWait?
  {
    var late := [MoveOut(0), GiveSend(0)] + [];
    var mid := [BeginRecv(0, false), TakeRecv(0)] + late;
    assert Init(1, 2) == One(0, 0, Seg(1, []), Seg(0, []), Idle, Idle, [], []);
    FirstSends([MoveIn(0), GiveRecv(0)] + ([BeginSend(1, 6, false), TakeSend(1)] + mid));
    FirstStores([BeginSend(1, 6, false), TakeSend(1)] + mid);
    SecondWaits(mid);
    UnitTaken(late);
    HandedOver([]);
  }

  lemma {:induction false} FirstWaits(es: seq<Event>)
    ensures Run(One(0, 0, Seg(1, []), Seg(0, []), Idle, Idle, [], []), [BeginRecv(0, false), TakeRecv(0)] + es) ==
            Run(One(0, 0, Seg(1, []), Seg(0, [0]), RecvWait, Idle, [], []), es)
  {
    hide Run;
    RunTwo(One(0, 0, Seg(1, []), Seg(0, []), Idle, Idle, [], []), BeginRecv(0, false),
           One(0, 0, Seg(1, []), Seg(0, []), RecvWant, Idle, [], []), TakeRecv(0),
           One(0, 0, Seg(1, []), Seg(0, [0]), RecvWait, Idle, [], []), es);
  }

  lemma {:induction false} SecondSends(es: seq<Event>)
    ensures Run(One(0, 0, Seg(1, []), Seg(0, [0]), RecvWait, Idle, [], []),
                [BeginSend(1, 5, false), TakeSend(1)] + es) ==
            Run(One(0, 0, Seg(0, []), Seg(0, [0]), RecvWait, SendHave(5), [], []), es)
  {
    hide Run;
    RunTwo(One(0, 0, Seg(1, []), Seg(0, [0]), RecvWait, Idle, [], []), BeginSend(1, 5, false),
           One(0, 0, Seg(1, []), Seg(0, [0]), RecvWait, SendWant(5), [], []), TakeSend(1),
           One(0, 0, Seg(0, []), Seg(0, [0]), RecvWait, SendHave(5), [], []), es);
  }

  lemma {:induction false} SecondStores(es: seq<Event>)
    ensures Run(One(0, 0, Seg(0, []), Seg(0, [0]), RecvWait, SendHave(5), [], []), [MoveIn(1), GiveRecv(1)] + es) ==
            Run(One(5, 1, Seg(0, []), Seg(0, []), RecvHave, Idle, [5], []), es)
  {
    hide Run;
    RunTwo(One(0, 0, Seg(0, []), Seg(0, [0]), RecvWait, SendHave(5), [], []), MoveIn(1),
           One(5, 1, Seg(0, []), Seg(0, [0]), RecvWait, SendDone, [5], []), GiveRecv(1),
           One(5, 1, Seg(0, []), Seg(0, []), RecvHave, Idle, [5], []), es);
  }

  /** The same for a receive: with one slot, thread 0 has to wait for a message, and thread 1 stores
      one, whose unit goes to thread 0. Now the queue holds a message, and a receive with tmo < 0
      passes the emptiness test and waits. */
  lemma {:induction false} NonBlockingRecvCanWait()
    ensures var es := [BeginRecv(0, false), TakeRecv(0)] + ([BeginSend(1, 5, false), TakeSend(1)] +
                      ([MoveIn(1), GiveRecv(1)] + []));
            var s := Reached(1, 2, es);
            && s.q.cnt == 1 && |s.pcs| == 2 && s.pcs[1].Idle?
            && Step(Step(s, BeginRecv(1, true)), TakeRecv(1)).pcs[1].RecvWait?
  {
    assert Init(1, 2) == One(0, 0, Seg(1, []), Seg(0, []), Idle, Idle, [], []);
    FirstWaits([BeginSend(1, 5, false), TakeSend(1)] + ([MoveIn(1), GiveRecv(1)] + []));
    SecondSends([MoveIn(1), GiveRecv(1)] + []);
    SecondStores([]);
  }
}

/** The code of kernel/net/fixq.c and of the semaphore it uses. */
module Fixq {
  import opened Chunks
  import opened Segment
  import opened FixqRun

  /** segment_t. */
  class Semaphore {
    var count: nat
    var waiters: seq<Tid>

    ghost function Value(): (r: Seg)
      reads this
    {
      Seg(count, waiters)
    }

    constructor (units: nat)
      ensures Value() == Seg(units, [])
    {
      count, waiters := units, [];
    }

    /** segment_wait by thread `t`, which blocks when it got no unit. */
    method SegmentWait(t: Tid) returns (blocked: bool)
      modifies this
      ensures Value() == Wait(old(Value()), t) && blocked == (old(count) == 0)
    {
      if count > 0 {
        count := count - 1;
        return false;
      }
      waiters := waiters + [t];
      return true;
    }

    /** segment_wakeup with a NULL pid. */
    method SegmentWakeup() returns (woken: Option<Tid>)
      modifies this
      ensures Value() == Wakeup(old(Value())) && woken == Woken(old(Value()))
    {
      if waiters != [] {
        woken := Some(waiters[0]);
        waiters := waiters[1..];
      } else {
        woken := None;
        count := count + 1;
      }
    }
  }

  /** fixq_t. The entry of fixq_send and fixq_recv, each call of a semaphore and the access to the
      ring are one method each; the ring access of one thread is taken not to be interrupted by
      that of another. */
  class FixQueue {
    const size: nat
    const buf: array<Msg>
    var inn: nat
    var out: nat
    var cnt: nat
    const sendSem: Semaphore
    const recvSem: Semaphore

    ghost function Value(): (r: Queue)
      reads this, buf, sendSem, recvSem
    {
      Queue(size, buf[..], inn, out, cnt, sendSem.Value(), recvSem.Value())
    }

    /** fixq_init. */
    constructor (size: nat, n: nat)
      ensures Value() == Init(size, n).q && fresh(buf) && fresh(sendSem) && fresh(recvSem)
    {
      this.size := size;
      buf := new Msg[size](i => 0);
      inn, out, cnt := 0, 0, 0;
      sendSem := new Semaphore(size);
      recvSem := new Semaphore(0);
      new;
      assert buf[..] == seq(size, i => 0);
    }

    /** The ring access of fixq_send. */
    method Put(msg: Msg)
      requires inn < buf.Length
      modifies this`inn, this`cnt, buf
      ensures Value() == MovedIn(old(Value()), msg)
    {
      buf[inn] := msg;
      inn := inn + 1;
      if inn >= size {
        inn := 0;
      }
      cnt := cnt + 1;
    }

    /** The ring access of fixq_recv. */
    method Get() returns (msg: Msg)
      requires out < buf.Length && cnt > 0
      modifies this`out, this`cnt
      ensures Value() == MovedOut(old(Value())) && msg == old(buf[out])
    {
      msg := buf[out];
      out := out + 1;
      if out >= size {
        out := 0;
      }
      cnt := cnt - 1;
    }

    /** The test at the entry of fixq_send, and that of fixq_recv. */
    method MaySend(noWait: bool) returns (go: bool)
      ensures go <==> (noWait ==> cnt < size)
    {
      go := !(cnt >= size && noWait);
    }

    method MayRecv(noWait: bool) returns (go: bool)
      ensures go <==> (noWait ==> cnt > 0)
    {
      go := !(cnt == 0 && noWait);
    }

    /** One step of any thread, carried out on the real queue: `pcs` says where the threads are. */
    method Perform(pcs: seq<Pc>, e: Event, ghost s: State) returns (next: seq<Pc>)
      requires Inv(s) && Enabled(s, e) && s.q == Value() && s.pcs == pcs && sendSem != recvSem
      modifies this, buf, sendSem, recvSem
      ensures Inv(Step(s, e)) && Step(s, e).q == Value() && Step(s, e).pcs == next
    {
      StepInv(s, e);
      MovesAreSafe(s, e);
      hide Inv;
      next := pcs;
      match e {
        case BeginSend(t, msg, noWait) =>
          var go := MaySend(noWait);
          if go {
            next := pcs[t := SendWant(msg)];
          }
        case BeginRecv(t, noWait) =>
          var go := MayRecv(noWait);
          if go {
            next := pcs[t := RecvWant];
          }
        case TakeSend(t) =>
          var blocked := sendSem.SegmentWait(t);
          next := pcs[t := if blocked then SendWait(pcs[t].msg) else SendHave(pcs[t].msg)];
        case TakeRecv(t) =>
          var blocked := recvSem.SegmentWait(t);
          next := pcs[t := if blocked then RecvWait else RecvHave];
        case MoveIn(t) =>
          Put(pcs[t].msg);
          next := pcs[t := SendDone];
        case MoveOut(t) =>
          var msg := Get();
          next := pcs[t := RecvDone(msg)];
        case GiveRecv(t) =>
          var woken := recvSem.SegmentWakeup();
          next := Release(pcs[t := Idle], woken);
        case GiveSend(t) =>
          var woken := sendSem.SegmentWakeup();
          next := Release(pcs[t := Idle], woken);
      }
    }
  }
}
