/** The counting semaphore of kernel/thread/schedule/segment.c, on values. */
module Segment {
  import opened Chunks

  type Tid = nat

  /** segment_t: free units, and the waiting threads in arrival order. */
  datatype Seg = Seg(count: nat, waiters: seq<Tid>)

  /** segment_wait by thread `t`: it takes a unit or queues up. */
  function Wait(s: Seg, t: Tid): (r: Seg) {
    if s.count > 0 then s.(count := s.count - 1) else s.(waiters := s.waiters + [t])
  }

  /** The thread that segment_wakeup releases. */
  function Woken(s: Seg): (r: Option<Tid>) {
    if s.waiters == [] then None else Some(s.waiters[0])
  }

  /** segment_wakeup without a pid: hands a unit to the first waiter or keeps it. */
  function Wakeup(s: Seg): (r: Seg) {
    if s.waiters == [] then s.(count := s.count + 1) else s.(waiters := s.waiters[1..])
  }

  // ------------------------------------------------------------------ every sequence of calls

  datatype Call = WaitBy(t: Tid) | Give

  function After(s: Seg, calls: seq<Call>): (r: Seg)
    decreases |calls|
  {
    if calls == [] then s
    else After(match calls[0] case WaitBy(t) => Wait(s, t) case Give => Wakeup(s), calls[1..])
  }

  /** The callers that had to queue up, in order, and the waiters released, in order. */
  function QueuedUp(s: Seg, calls: seq<Call>): (r: seq<Tid>)
    decreases |calls|
  {
    if calls == [] then []
    else match calls[0]
         case WaitBy(t) => (if s.count > 0 then [] else [t]) + QueuedUp(Wait(s, t), calls[1..])
         case Give => QueuedUp(Wakeup(s), calls[1..])
  }

  function Released(s: Seg, calls: seq<Call>): (r: seq<Tid>)
    decreases |calls|
  {
    if calls == [] then []
    else match calls[0]
         case WaitBy(t) => Released(Wait(s, t), calls[1..])
         case Give => (if s.waiters == [] then [] else [s.waiters[0]]) + Released(Wakeup(s), calls[1..])
  }

  function WaitCount(calls: seq<Call>): (r: nat) {
    if calls == [] then 0 else (if calls[0].WaitBy? then 1 else 0) + WaitCount(calls[1..])
  }

  /** First come, first served, and units are neither made nor lost: a wait is complete when its
      caller was not queued or has been released. */
  lemma {:induction false} SegmentHistory(s: Seg, calls: seq<Call>)
    ensures s.waiters + QueuedUp(s, calls) == Released(s, calls) + After(s, calls).waiters
    ensures |QueuedUp(s, calls)| <= WaitCount(calls) <= |calls|
    ensures s.count + (|calls| - WaitCount(calls)) ==
            (WaitCount(calls) - |QueuedUp(s, calls)|) + |Released(s, calls)| + After(s, calls).count
    decreases |calls|
  {
    if calls != [] {
      var n := match calls[0] case WaitBy(t) => Wait(s, t) case Give => Wakeup(s);
      SegmentHistory(n, calls[1..]);
      var q, r, w := QueuedUp(n, calls[1..]), Released(n, calls[1..]), After(n, calls[1..]).waiters;
      match calls[0] {
        case WaitBy(t) =>
          assert s.waiters + ((if s.count > 0 then [] else [t]) + q) == n.waiters + q;
        case Give =>
          if s.waiters != [] {
            assert s.waiters + q == [s.waiters[0]] + (n.waiters + q);
            assert [s.waiters[0]] + (r + w) == ([s.waiters[0]] + r) + w;
          } else {
            assert [] + r == r;
          }
      }
    }
  }
}
