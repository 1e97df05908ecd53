/** ready_tasks and sleep_tasks of kernel/thread/thread.c as pointers: the general_tag of every
    task is a node, and the two lists share these nodes. */
module RunLists {
  import opened Chunks
  import opened Lists
  import opened Segment
  import opened Links

  /** The sentinels of the two lists come before the nodes of the tasks. */
  const SENTINELS := 4

  function Node(t: Tid): (r: nat) {
    t + SENTINELS
  }

  function Nodes(s: seq<Tid>): (r: seq<nat>)
    ensures |r| == |s| && forall i :: 0 <= i < |s| ==> r[i] == Node(s[i])
  {
    seq(|s|, i requires 0 <= i < |s| => Node(s[i]))
  }

  function ChainOf(h: nat, s: seq<Tid>): (r: seq<nat>)
    ensures |r| == |s| + 2
  {
    [h] + Nodes(s) + [h + 1]
  }

  ghost predicate InRange(m: Mem) {
    forall x: nat :: m.Has(x) ==> (m.pre[x] == NULL || m.Has(m.pre[x])) && (m.next[x] == NULL || m.Has(m.next[x]))
  }

  /** A flag says for each task whether its links are set. */
  ghost predicate Flags(m: Mem, linked: seq<bool>) {
    && |m.pre| == |m.next| == |linked| + SENTINELS
    && forall t :: 0 <= t < |linked| ==>
         (linked[t] <==> m.pre[Node(t)] != NULL) && (linked[t] <==> m.next[Node(t)] != NULL)
  }

  /** The two lists are linked in this order and share no task. */
  ghost predicate Wired(m: Mem, ready: seq<Tid>, sleep: seq<Tid>, linked: seq<bool>) {
    && Flags(m, linked) && InRange(m)
    && Linked(m, ChainOf(0, ready)) && Linked(m, ChainOf(2, sleep))
    && forall t: Tid :: t in ready ==> t !in sleep
  }

  lemma {:induction false} InChain(h: nat, s: seq<Tid>, t: Tid)
    requires h < SENTINELS - 1
    ensures Node(t) in ChainOf(h, s) <==> t in s
  {
    var c := ChainOf(h, s);
    if t in s {
      var i :| 0 <= i < |s| && s[i] == t;
      assert c[i + 1] == Node(t);
    }
    if Node(t) in c {
      var i :| 0 <= i < |c| && c[i] == Node(t);
      assert i > 0 && i <= |s| && s[i - 1] == t;
    }
  }

  /** A list of other tasks does not notice an operation. */
  lemma {:induction false} OtherStays(m: Mem, r: Mem, h: nat, s: seq<Tid>, t: Tid, g: nat, o: seq<Tid>)
    requires Frame(m, r, ChainOf(h, s), Node(t)) && Linked(m, ChainOf(g, o)) && {h, g} == {0, 2} && t !in o
    requires forall x: Tid :: x in s ==> x !in o
    ensures Linked(r, ChainOf(g, o))
  {
    hide Linked, Frame;
    var c, d := ChainOf(h, s), ChainOf(g, o);
    forall i | 0 <= i < |d| ensures d[i] !in c && d[i] != Node(t) {
      if 0 < i <= |o| {
        InChain(h, s, o[i - 1]);
        assert o[i - 1] in o && d[i] == Node(o[i - 1]);
      } else {
        assert d[i] == g || d[i] == g + 1;
        assert forall j :: 0 <= j < |c| ==> c[j] != d[i];
      }
    }
    FrameOthers(m, r, c, Node(t), d);
  }

  lemma {:induction false} FlagsStay(m: Mem, r: Mem, c: seq<nat>, t: Tid, linked: seq<bool>)
    requires Flags(m, linked) && t < |linked| && Frame(m, r, c, Node(t)) &&
             (r.pre[Node(t)] == NULL <==> r.next[Node(t)] == NULL)
    ensures Flags(r, linked[t := r.pre[Node(t)] != NULL])
  {
    forall x | 0 <= x < |linked| && x != t
      ensures (linked[x] <==> r.pre[Node(x)] != NULL) && (linked[x] <==> r.next[Node(x)] != NULL)
    {
      assert m.Has(Node(x)) && Node(x) != Node(t);
    }
  }

  lemma {:induction false} RangeStays(m: Mem, r: Mem, c: seq<nat>, n: nat)
    requires InRange(m) && Frame(m, r, c, n) && m.Has(n) && Linked(m, c)
    ensures InRange(r)
  {
    hide NoDup;
    forall x: nat | r.Has(x) ensures (r.pre[x] == NULL || r.Has(r.pre[x])) && (r.next[x] == NULL || r.Has(r.next[x])) {
      assert m.Has(x);
    }
  }

  /** One of the lists changed by an operation on task `t`. */
  lemma {:induction false} Rewired(m: Mem, r: Mem, ready: seq<Tid>, sleep: seq<Tid>, linked: seq<bool>, t: Tid,
                                   onReady: bool, s: seq<Tid>)
    requires Wired(m, ready, sleep, linked) && t < |linked| && t !in (if onReady then sleep else ready)
    requires Frame(m, r, ChainOf(if onReady then 0 else 2, if onReady then ready else sleep), Node(t))
    requires Linked(r, ChainOf(if onReady then 0 else 2, s)) && (r.pre[Node(t)] == NULL <==> r.next[Node(t)] == NULL)
    requires forall x: Tid :: x in s ==> x == t || x in (if onReady then ready else sleep)
    ensures Wired(r, if onReady then s else ready, if onReady then sleep else s, linked[t := r.pre[Node(t)] != NULL])
  {
    hide Linked, Frame, Flags, InRange;
    var c := ChainOf(if onReady then 0 else 2, if onReady then ready else sleep);
    assert m.Has(Node(t)) by { NodeThere(m, linked, t); }
    FlagsStay(m, r, c, t, linked);
    RangeStays(m, r, c, Node(t));
    if onReady {
      OtherStays(m, r, 0, ready, t, 2, sleep);
    } else {
      OtherStays(m, r, 2, sleep, t, 0, ready);
    }
  }

  lemma {:induction false} NodeThere(m: Mem, linked: seq<bool>, t: Tid)
    requires Flags(m, linked) && t < |linked|
    ensures m.Has(Node(t))
  {
  }

  /** A task in a list has its links set. */
  lemma {:induction false} InListLinked(m: Mem, ready: seq<Tid>, sleep: seq<Tid>, linked: seq<bool>, t: Tid)
    requires Wired(m, ready, sleep, linked) && (t in ready || t in sleep)
    ensures t < |linked| && linked[t]
  {
    hide NoDup, InRange;
    var c := if t in ready then ChainOf(0, ready) else ChainOf(2, sleep);
    InChain(if t in ready then 0 else 2, if t in ready then ready else sleep, t);
    var i :| 0 <= i < |c| && c[i] == Node(t);
    assert m.Has(c[i]) && 0 < i;
    assert m.pre[c[i]] == c[i - 1];
  }

  /** A new task whose links are copied from one in no list. */
  lemma {:induction false} Extended(m: Mem, ready: seq<Tid>, sleep: seq<Tid>, linked: seq<bool>)
    requires Wired(m, ready, sleep, linked)
    ensures Wired(Mem(m.pre + [NULL], m.next + [NULL]), ready, sleep, linked + [false])
  {
    var r := Mem(m.pre + [NULL], m.next + [NULL]);
    LinkedMore(m, r, ChainOf(0, ready));
    LinkedMore(m, r, ChainOf(2, sleep));
    hide Linked;
  }

  lemma {:induction false} LinkedMore(m: Mem, r: Mem, c: seq<nat>)
    requires Linked(m, c) && m.pre <= r.pre && m.next <= r.next
    ensures Linked(r, c)
  {
    hide NoDup;
  }

  lemma {:induction false} NodesParts(h: nat, s: seq<Tid>, t: Tid)
    ensures ChainOf(h, [t] + s) == [h] + ([Node(t)] + Nodes(s)) + [h + 1]
    ensures ChainOf(h, s + [t]) == [h] + (Nodes(s) + [Node(t)]) + [h + 1]
    ensures Nodes([t] + s) == [Node(t)] + Nodes(s) && Nodes(s + [t]) == Nodes(s) + [Node(t)]
  {
  }

  lemma {:induction false} NodesRemove(s: seq<Tid>, t: Tid)
    ensures Nodes(Lists.Remove(s, t)) == Lists.Remove(Nodes(s), Node(t))
  {
    if s != [] {
      NodesRemove(s[1..], t);
      assert Nodes(s)[1..] == Nodes(s[1..]);
      if s[0] != t {
        assert Nodes([s[0]] + Lists.Remove(s[1..], t)) == [Node(s[0])] + Nodes(Lists.Remove(s[1..], t));
      }
    }
  }

  lemma {:induction false} RemoveSubset(s: seq<nat>, t: nat)
    ensures forall x: nat :: x in Lists.Remove(s, t) ==> x in s
  {
    if s != [] {
      RemoveSubset(s[1..], t);
    }
  }

  // ------------------------------------------------------------------ the two lists

  class RunLists {
    const mem: Memory
    const ready: List
    const sleep: List
    ghost var readyT: seq<Tid>
    ghost var sleepT: seq<Tid>
    ghost var linked: seq<bool>

    ghost predicate Valid()
      reads this, mem, ready, sleep
    {
      && ready.mem == mem && sleep.mem == mem && ready != sleep
      && ready.head == 0 && ready.tail == 1 && sleep.head == 2 && sleep.tail == 3
      && ready.contents == Nodes(readyT) && sleep.contents == Nodes(sleepT)
      && ready.size == |readyT| && sleep.size == |sleepT|
      && Wired(mem.Value(), readyT, sleepT, linked)
    }

    /** Empty lists for `n` tasks. */
    constructor (n: nat)
      ensures Valid() && readyT == [] && sleepT == [] && linked == seq(n, i => false)
      ensures fresh(mem) && fresh(ready) && fresh(sleep)
    {
      var m := new Memory(n + SENTINELS);
      mem := m;
      ready := new List(m, 0, 1);
      sleep := new List(m, 2, 3);
      readyT, sleepT, linked := [], [], seq(n, i => false);
      new;
      assert ChainOf(0, []) == [0, 1] && ChainOf(2, []) == [2, 3];
    }

    /** pushl or pushr on ready_tasks. */
    method PushReady(t: Tid, first: bool)
      requires Valid() && t < |linked| && t !in readyT && t !in sleepT
      modifies this`readyT, this`linked, mem, ready
      ensures Valid() && linked == old(linked)[t := true]
      ensures readyT == if first then [t] + old(readyT) else old(readyT) + [t]
    {
      hide Linked, Frame, Wired;
      ghost var m := mem.Value();
      WiredParts(m, readyT, sleepT, linked);
      InChain(0, readyT, t);
      NodeThere(m, linked, t);
      NodesParts(0, readyT, t);
      ghost var s := if first then [t] + readyT else readyT + [t];
      if first {
        ready.PushL(Node(t));
      } else {
        ready.PushR(Node(t));
      }
      assert ready.Chain() == ChainOf(0, s);
      Rewired(m, mem.Value(), readyT, sleepT, linked, t, true, s);
      readyT := s;
      linked := linked[t := true];
    }

    /** pushr on sleep_tasks. */
    method PushSleep(t: Tid)
      requires Valid() && t < |linked| && t !in readyT && t !in sleepT
      modifies this`sleepT, this`linked, mem, sleep
      ensures Valid() && linked == old(linked)[t := true] && sleepT == old(sleepT) + [t]
    {
      hide Linked, Frame, Wired;
      ghost var m := mem.Value();
      WiredParts(m, readyT, sleepT, linked);
      InChain(2, sleepT, t);
      NodeThere(m, linked, t);
      NodesParts(2, sleepT, t);
      ghost var s := sleepT + [t];
      sleep.PushR(Node(t));
      assert sleep.Chain() == ChainOf(2, s);
      Rewired(m, mem.Value(), readyT, sleepT, linked, t, false, s);
      sleepT := s;
      linked := linked[t := true];
    }

    /** popl on ready_tasks. */
    method PopReady() returns (r: Option<Tid>)
      requires Valid()
      modifies this`readyT, this`linked, mem, ready
      ensures Valid() && (r.None? <==> old(readyT) == [])
      ensures r.None? ==> readyT == old(readyT) && linked == old(linked)
      ensures r.Some? ==>
                old(readyT) == [r.value] + readyT && r.value < |old(linked)| &&
                linked == old(linked)[r.value := false]
    {
      hide Linked, Frame, Wired;
      ghost var m := mem.Value();
      WiredParts(m, readyT, sleepT, linked);
      ghost var was := readyT;
      var n := ready.PopL();
      if n == NULL {
        return None;
      }
      assert Nodes(was)[0] == n && was[0] in was;
      InListLinked(m, readyT, sleepT, linked, was[0]);
      ghost var s := readyT[1..];
      assert ready.contents == Nodes(s);
      assert ready.Chain() == ChainOf(0, s);
      Disjoint(m, readyT, sleepT, linked, was[0]);
      Rewired(m, mem.Value(), readyT, sleepT, linked, was[0], true, s);
      readyT := s;
      linked := linked[was[0] := false];
      r := Some(n - SENTINELS);
    }

    /** remove on ready_tasks, of a task that is in it or whose links are cleared: the harmless
        half of Links.List.Remove. */
    method RemoveReady(t: Tid)
      requires Valid() && t < |linked| && (t in readyT || !linked[t])
      modifies this`readyT, mem, ready
      ensures Valid() && readyT == Lists.Remove(old(readyT), t)
    {
      hide Linked, Frame, Wired, Unlink, Agrees;
      ghost var m := mem.Value();
      WiredParts(m, readyT, sleepT, linked);
      NodeThere(m, linked, t);
      FlagAt(m, linked, t);
      InChain(0, readyT, t);
      InContents(readyT, t);
      ready.Remove(Node(t));
      RemoveWired(m, readyT, sleepT, linked, t, true);
      NodesRemove(readyT, t);
      readyT := Lists.Remove(readyT, t);
    }

    /** remove on sleep_tasks, of a task that is in it. */
    method RemoveSleep(t: Tid)
      requires Valid() && t < |linked| && t in sleepT
      modifies this`sleepT, mem, sleep
      ensures Valid() && sleepT == Lists.Remove(old(sleepT), t)
    {
      hide Linked, Frame, Wired, Unlink, Agrees;
      ghost var m := mem.Value();
      WiredParts(m, readyT, sleepT, linked);
      NodeThere(m, linked, t);
      FlagAt(m, linked, t);
      InChain(2, sleepT, t);
      InContents(sleepT, t);
      sleep.Remove(Node(t));
      RemoveWired(m, readyT, sleepT, linked, t, false);
      NodesRemove(sleepT, t);
      sleepT := Lists.Remove(sleepT, t);
    }

    /** The node of a new task, a copy of one whose links are cleared. */
    method AddNode(of: Tid)
      requires Valid() && of < |linked| && !linked[of]
      modifies this`linked, mem
      ensures Valid() && linked == old(linked) + [false]
    {
      hide Linked, Wired;
      ghost var m := mem.Value();
      WiredParts(m, readyT, sleepT, linked);
      NodeThere(m, linked, of);
      FlagAt(m, linked, of);
      Extended(m, readyT, sleepT, linked);
      mem.pre := mem.pre + [mem.pre[Node(of)]];
      mem.next := mem.next + [mem.next[Node(of)]];
      linked := linked + [false];
    }

    /** The start of list_foreach over sleep_tasks. */
    method FirstAsleep() returns (r: Option<Tid>)
      requires Valid()
      ensures r == if sleepT == [] then None else Some(sleepT[0])
    {
      hide Linked, Wired;
      WiredParts(mem.Value(), readyT, sleepT, linked);
      LinkAt(mem.Value(), ChainOf(2, sleepT), 0);
      var p := mem.next[sleep.head];
      assert p == ChainOf(2, sleepT)[1];
      r := if p == sleep.tail then None else Some(p - SENTINELS);
    }

    /** Its step from the task at place `i`. */
    method NextAsleep(t: Tid, ghost i: nat) returns (r: Option<Tid>)
      requires Valid() && i < |sleepT| && sleepT[i] == t
      ensures r == if i + 1 < |sleepT| then Some(sleepT[i + 1]) else None
    {
      hide Linked, Wired;
      WiredParts(mem.Value(), readyT, sleepT, linked);
      assert ChainOf(2, sleepT)[i + 1] == Node(t);
      LinkAt(mem.Value(), ChainOf(2, sleepT), i + 1);
      var p := mem.next[Node(t)];
      assert p == ChainOf(2, sleepT)[i + 2];
      r := if p == sleep.tail then None else Some(p - SENTINELS);
    }
  }

  lemma {:induction false} WiredParts(m: Mem, ready: seq<Tid>, sleep: seq<Tid>, linked: seq<bool>)
    requires Wired(m, ready, sleep, linked)
    ensures Flags(m, linked) && InRange(m) && Linked(m, ChainOf(0, ready)) && Linked(m, ChainOf(2, sleep))
  {
  }

  lemma {:induction false} Disjoint(m: Mem, ready: seq<Tid>, sleep: seq<Tid>, linked: seq<bool>, t: Tid)
    requires Wired(m, ready, sleep, linked)
    ensures t in ready ==> t !in sleep
  {
  }

  lemma {:induction false} FlagAt(m: Mem, linked: seq<bool>, t: Tid)
    requires Flags(m, linked) && t < |linked|
    ensures (linked[t] <==> m.pre[Node(t)] != NULL) && (linked[t] <==> m.next[Node(t)] != NULL)
  {
  }

  lemma {:induction false} InContents(s: seq<Tid>, t: Tid)
    ensures Node(t) in Nodes(s) <==> t in s
  {
    if t in s {
      var i :| 0 <= i < |s| && s[i] == t;
      assert Nodes(s)[i] == Node(t);
    }
  }

  /** A removal that does no harm leaves both lists linked and all flags as they are. */
  lemma {:induction false} RemoveWired(m: Mem, ready: seq<Tid>, sleep: seq<Tid>, linked: seq<bool>, t: Tid,
                                       onReady: bool)
    requires Wired(m, ready, sleep, linked) && t < |linked| && m.Has(Node(t))
    requires t in (if onReady then ready else sleep) || !linked[t]
    ensures Wired(Unlink(m, Node(t)), if onReady then Lists.Remove(ready, t) else ready,
                  if onReady then sleep else Lists.Remove(sleep, t), linked)
  {
    hide Linked, Frame, Flags, InRange;
    var h, s := if onReady then 0 else 2, if onReady then ready else sleep;
    FlagAt(m, linked, t);
    if t in s {
      InListLinked(m, ready, sleep, linked, t);
      var k :| 0 <= k < |s| && s[k] == t;
      var c := ChainOf(h, s);
      assert c[k + 1] == Node(t);
      CutFrame(m, c, k + 1);
      Cut(m, c, k + 1);
      ChainNoDup(m, c);
      CutIs(h, s, k);
      RemoveSubset(s, t);
      Rewired(m, Unlink(m, Node(t)), ready, sleep, linked, t, onReady, Lists.Remove(s, t));
      assert linked[t := true] == linked;
    } else {
      assert !m.Has(NULL);
      RemoveAbsent(s, t);
    }
  }

  lemma {:induction false} CutIs(h: nat, s: seq<Tid>, k: nat)
    requires k < |s| && NoDup(ChainOf(h, s))
    ensures ChainOf(h, Lists.Remove(s, s[k])) == ChainOf(h, s)[..k + 1] + ChainOf(h, s)[k + 2..]
  {
    var c := ChainOf(h, s);
    forall j | 0 <= j < k ensures s[j] != s[k] {
      assert c[j + 1] != c[k + 1];
    }
    RemoveAt(s, k);
    assert Nodes(s[..k] + s[k + 1..]) == Nodes(s)[..k] + Nodes(s)[k + 1..];
  }
}
