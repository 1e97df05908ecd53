/** Several datagrams of one source, one after the other: which fragments a datagram that is
    handed up is made of. */
module Streams {
  import opened Chunks
  import opened Ipv4
  import opened Reassembly

  /** The list of the source after these packets. */
  function ListAfter(list: seq<Packet>, ps: seq<Packet>): (r: seq<Packet>)
    decreases |ps|
  {
    if ps == [] then list else ListAfter(Accept(list, ps[0]).list, ps[1..])
  }

  /** The packets accepted since the list was last empty, in order of arrival, given those
      accepted before. */
  function Gathered(list: seq<Packet>, acc: seq<Packet>, ps: seq<Packet>): (r: seq<Packet>)
    decreases |ps|
  {
    if ps == [] then acc
    else
      var o := Accept(list, ps[0]);
      Gathered(o.list, if o.list == [] then [] else if o.err == OK then acc + [ps[0]] else acc, ps[1..])
  }

  // ------------------------------------------------------------------ what the list is made of

  lemma {:induction false} InsertBag(list: seq<Packet>, p: Packet)
    requires Insert(list, p).Some?
    ensures multiset(Insert(list, p).value) == multiset(list) + multiset{p}
  {
    if list != [] && !(End(p) <= Start(list[0])) {
      InsertBag(list[1..], p);
      assert list == [list[0]] + list[1..];
    }
  }

  lemma {:induction false} AcceptBag(list: seq<Packet>, acc: seq<Packet>, p: Packet)
    requires multiset(list) == multiset(acc)
    ensures var o := Accept(list, p);
            multiset(o.list) == multiset(if o.list == [] then [] else if o.err == OK then acc + [p] else acc)
  {
    hide Insert;
    if |list| < FRAGS_MAX && Insert(list, p).Some? {
      InsertBag(list, p);
    }
  }

  /** Whatever arrives, the list holds exactly the packets accepted since it was last empty. */
  lemma {:induction false} ListIsGathered(list: seq<Packet>, acc: seq<Packet>, ps: seq<Packet>)
    requires multiset(list) == multiset(acc)
    ensures multiset(ListAfter(list, ps)) == multiset(Gathered(list, acc, ps))
    decreases |ps|
  {
    hide Accept;
    if ps != [] {
      AcceptBag(list, acc, ps[0]);
      var o := Accept(list, ps[0]);
      ListIsGathered(o.list, if o.list == [] then [] else if o.err == OK then acc + [ps[0]] else acc, ps[1..]);
    }
  }

  /** All packets carry the same identification. */
  ghost predicate OneId(ps: seq<Packet>) {
    forall p, q :: p in ps && q in ps ==> p.hdr.id == q.hdr.id
  }

  lemma {:induction false} SameBagSameMembers(a: seq<Packet>, b: seq<Packet>)
    requires multiset(a) == multiset(b)
    ensures forall p: Packet :: p in a <==> p in b
  {
    forall p: Packet ensures p in a <==> p in b {
      assert p in a <==> p in multiset(a);
      assert p in b <==> p in multiset(b);
    }
  }

  /** The exact condition for a datagram that is handed up not to mix others: for arbitrary packets
      of the source, the fragments joined carry one identification if and only if all packets
      accepted since the list was last empty do. */
  lemma {:induction false} OneIdIff(ps: seq<Packet>, p: Packet)
    requires Accept(ListAfter([], ps), p).out.Some?
    ensures var list, acc := ListAfter([], ps), Gathered([], [], ps);
            && Insert(list, p).Some? && Insert(list, p).value != []
            && Accept(list, p).out == Some(Joined(Insert(list, p).value))
            && multiset(Insert(list, p).value) == multiset(acc + [p])
            && (OneId(Insert(list, p).value) <==> OneId(acc + [p]))
  {
    hide ListAfter, Gathered, Insert;
    var list, acc := ListAfter([], ps), Gathered([], [], ps);
    ListIsGathered([], [], ps);
    InsertBag(list, p);
    SameBagSameMembers(Insert(list, p).value, acc + [p]);
  }

  // ------------------------------------------------------------------ genuine datagrams

  lemma {:induction false} StartsApart(fs: seq<Packet>, s: nat, p: Packet)
    requires Contiguous(fs, s) && p in fs
    ensures Start(p) >= s && (Start(p) == s ==> p == fs[0]) && (p != fs[0] ==> |fs| > 1 && p in fs[1..])
  {
    var d :| 0 <= d < |fs| && fs[d] == p;
    ContiguousAt(fs, s, d);
    if d > 0 {
      assert fs[1..][d - 1] == p;
    }
  }

  /** Fragments of one datagram that follow each other up to the end are all of it. */
  lemma {:induction false} CompleteIsAll(fs: seq<Packet>, s: nat, l: seq<Packet>)
    requires Contiguous(fs, s) && Arrived(l, s, true) && l != [] && forall p :: p in l ==> p in fs
    ensures l == fs
    decreases |l|
  {
    StartsApart(fs, s, l[0]);
    var t := s + |l[0].data|;
    assert l == [l[0]] + l[1..] && fs == [fs[0]] + fs[1..];
    if |fs| == 1 {
      if l[1..] != [] {
        assert l[1] in l;
        StartsApart(fs, s, l[1]);
      }
    } else {
      forall p | p in l[1..] ensures p in fs[1..] {
        BehindFirst(l, s, p);
        StartsApart(fs, s, p);
      }
      if l[1..] != [] {
        CompleteIsAll(fs[1..], t, l[1..]);
      }
    }
  }

  lemma {:induction false} BehindFirst(l: seq<Packet>, s: nat, p: Packet)
    requires Arrived(l, s, true) && l != [] && l[0].data != [] && p in l[1..]
    ensures Start(p) > s
  {
    var d :| 0 <= d < |l[1..]| && l[1..][d] == p;
    ArrivedAt(l[1..], s + |l[0].data|, l[0].hdr.more, d);
  }

  /** Every packet that arrives is a fragment of the datagram of its identification. */
  ghost predicate Genuine(dgrams: map<Word16, seq<Packet>>, ps: seq<Packet>) {
    && (forall i :: i in dgrams ==> Contiguous(dgrams[i], 0) && forall p :: p in dgrams[i] ==> p.hdr.id == i)
    && (forall p :: p in ps ==> p.hdr.id in dgrams && p in dgrams[p.hdr.id])
  }

  lemma {:induction false} GatheredFrom(list: seq<Packet>, acc: seq<Packet>, ps: seq<Packet>)
    ensures forall p :: p in Gathered(list, acc, ps) ==> p in acc || p in ps
    decreases |ps|
  {
    hide Accept;
    if ps != [] {
      var o := Accept(list, ps[0]);
      var acc' := if o.list == [] then [] else if o.err == OK then acc + [ps[0]] else acc;
      GatheredFrom(o.list, acc', ps[1..]);
    }
  }

  /** For fragments of arbitrary datagrams in arbitrary order: what is handed up is the datagram of
      the last fragment, whole and alone, if and only if all fragments accepted since the list was
      last empty carry its identification. */
  lemma {:induction false} HandsUpItsOwnIff(dgrams: map<Word16, seq<Packet>>, ps: seq<Packet>, p: Packet)
    requires Genuine(dgrams, ps + [p]) && Accept(ListAfter([], ps), p).out.Some?
    ensures p.hdr.id in dgrams && Insert(ListAfter([], ps), p).Some?
    ensures Insert(ListAfter([], ps), p).value == dgrams[p.hdr.id] <==>
            forall q :: q in Gathered([], [], ps) ==> q.hdr.id == p.hdr.id
  {
    hide ListAfter, Gathered, Insert, Contiguous, Arrived;
    assert p in ps + [p];
    OneIdIff(ps, p);
    var l, acc, fs := Insert(ListAfter([], ps), p).value, Gathered([], [], ps), dgrams[p.hdr.id];
    SameBagSameMembers(l, acc + [p]);
    GatheredFrom([], [], ps);
    if forall q :: q in acc ==> q.hdr.id == p.hdr.id {
      forall q | q in l ensures q in fs {
        assert q in ps + [p];
      }
      CompleteIsAll(fs, 0, l);
    }
    if l == fs {
      forall q | q in acc ensures q.hdr.id == p.hdr.id {
        assert q in acc + [p];
      }
    }
  }

  // ------------------------------------------------------------------ one datagram after the other

  lemma {:induction false} OutputsAppend(list: seq<Packet>, a: seq<Packet>, b: seq<Packet>)
    ensures Outputs(list, a + b) == Outputs(list, a) + Outputs(ListAfter(list, a), b)
    ensures ListAfter(list, a + b) == ListAfter(ListAfter(list, a), b)
    decreases |a|
  {
    hide Accept;
    if a == [] {
      assert a + b == b;
    } else {
      assert (a + b)[1..] == a[1..] + b;
      OutputsAppend(Accept(list, a[0]).list, a[1..], b);
    }
  }

  /** The fragments received since the last completion, after these deliveries. */
  function MarkAll(have: seq<bool>, ds: seq<nat>): (r: seq<bool>)
    requires forall i :: 0 <= i < |ds| ==> ds[i] < |have|
    ensures |r| == |have|
    decreases |ds|
  {
    if ds == [] then have else MarkAll(Mark(have, ds[0]), ds[1..])
  }

  lemma {:induction false} ListAfterPick(fs: seq<Packet>, have: seq<bool>, ds: seq<nat>)
    requires Contiguous(fs, 0) && |fs| <= FRAGS_MAX && |have| == |fs| && !All(have)
    requires forall i :: 0 <= i < |ds| ==> ds[i] < |fs|
    ensures ListAfter(Pick(fs, have), Deliver(fs, ds)) == Pick(fs, MarkAll(have, ds))
    decreases |ds|
  {
    hide Pick, Accept, Contiguous, Mark;
    if ds != [] {
      AcceptMark(fs, have, ds[0]);
      ListAfterPick(fs, Mark(have, ds[0]), ds[1..]);
      assert Deliver(fs, ds)[1..] == Deliver(fs, ds[1..]);
    }
  }

  lemma {:induction false} MarkAllLast(have: seq<bool>, ds: seq<nat>)
    requires ds != [] && (forall i :: 0 <= i < |ds| ==> ds[i] < |have|) && Completions(have, ds)[|ds| - 1]
    ensures forall i :: 0 <= i < |have| ==> !MarkAll(have, ds)[i]
    decreases |ds|
  {
    if |ds| > 1 {
      MarkAllLast(Mark(have, ds[0]), ds[1..]);
    } else {
      assert ds[1..] == [];
    }
  }

  /** A datagram and the order in which its fragments arrive, repetitions included. */
  datatype Batch = Batch(fs: seq<Packet>, ds: seq<nat>)

  /** It is complete with the last fragment that arrives, and not before: no late repetition. */
  ghost predicate Whole(b: Batch) {
    && Contiguous(b.fs, 0) && |b.fs| <= FRAGS_MAX && b.ds != [] && (forall i :: 0 <= i < |b.ds| ==> b.ds[i] < |b.fs|)
    && !Covers(b.ds[..|b.ds| - 1], |b.fs|) && Covers(b.ds, |b.fs|)
  }

  function Silence(n: nat): (r: seq<Option<seq<Byte>>>)
    ensures |r| == n && forall i :: 0 <= i < n ==> r[i] == None
  {
    seq(n, i => None)
  }

  ghost function Expected(b: Batch): (r: seq<Option<seq<Byte>>>)
    requires Whole(b)
  {
    Silence(|b.ds| - 1) + [Some(Joined(b.fs))]
  }

  /** Its packets in the order of their arrival. */
  ghost function Packets(b: Batch): (r: seq<Packet>)
    requires Whole(b)
  {
    Deliver(b.fs, b.ds)
  }

  ghost function Arriving(bs: seq<Batch>): (r: seq<Packet>)
    requires forall i :: 0 <= i < |bs| ==> Whole(bs[i])
  {
    if bs == [] then [] else Packets(bs[0]) + Arriving(bs[1..])
  }

  ghost function AllExpected(bs: seq<Batch>): (r: seq<Option<seq<Byte>>>)
    requires forall i :: 0 <= i < |bs| ==> Whole(bs[i])
  {
    if bs == [] then [] else Expected(bs[0]) + AllExpected(bs[1..])
  }

  lemma {:induction false} OneBatch(b: Batch)
    requires Whole(b)
    ensures Outputs([], Packets(b)) == Expected(b) && ListAfter([], Packets(b)) == []
  {
    hide Outputs, ListAfter, Pick, Contiguous, Completions, MarkAll, Joined, Deliver;
    var k, none := |b.ds| - 1, seq(|b.fs|, i => false);
    assert b.ds[..k + 1] == b.ds;
    HandedUpWithLastMissing(b.fs, b.ds, k);
    PickNone(b.fs, none);
    NotAll(b.fs, none);
    assert [] + b.ds[..k] == b.ds[..k] && [] + b.ds[..k + 1] == b.ds[..k + 1];
    FirstCompletion(none, [], b.ds, k);
    ListAfterPick(b.fs, none, b.ds);
    MarkAllLast(none, b.ds);
    PickNone(b.fs, MarkAll(none, b.ds));
  }

  lemma {:induction false} NotAll(fs: seq<Packet>, none: seq<bool>)
    requires Contiguous(fs, 0) && |none| == |fs| && forall i :: 0 <= i < |none| ==> !none[i]
    ensures !All(none)
  {
    assert !none[0];
  }

  /** Datagrams that arrive one after the other, each complete before the next begins and without a
      late repetition, are all handed up, in order and unmixed. */
  lemma {:induction false} InOrder(bs: seq<Batch>)
    requires forall i :: 0 <= i < |bs| ==> Whole(bs[i])
    ensures Outputs([], Arriving(bs)) == AllExpected(bs) && ListAfter([], Arriving(bs)) == []
  {
    hide Outputs, ListAfter, Whole, Expected, Packets;
    if bs == [] {
      NothingArrives();
    } else {
      OneBatch(bs[0]);
      InOrder(bs[1..]);
      OutputsAppend([], Packets(bs[0]), Arriving(bs[1..]));
    }
  }

  lemma {:induction false} NothingArrives()
    ensures Outputs([], []) == [] && ListAfter([], []) == []
  {
  }

  /** A late repetition is enough to break it: datagram `a` is complete, its first fragment comes
      once more, and then `b` arrives: its first fragment counts as a repetition, and what is
      handed up begins with `a` and ends with `b`. */
  lemma {:induction false} LateRepeatMixes(a: seq<Packet>, b: seq<Packet>)
    requires |a| == |b| == 2 && Contiguous(a, 0) && Contiguous(b, 0) && |a[0].data| == |b[0].data|
    ensures Outputs([], [a[0], a[1]] + ([a[0]] + [b[0], b[1]])) ==
            [None, Some(Joined(a)), None, None, Some(a[0].head + (a[0].data + b[1].data))]
  {
    hide Accept, Contiguous;
    assert a == [a[0], a[1]];
    PairArrives(a);
    OutputsAppend([], [a[0], a[1]], [a[0]] + [b[0], b[1]]);
    MixesDatagrams(a, b);
    RepeatedFirst(a, b);
    assert [a[0], b[1]][1..] == [b[1]];
    assert ([a[0]] + [b[0], b[1]])[1..] == [b[0], b[1]] && [b[0], b[1]][1..] == [b[1]];
    var l := Accept([], a[0]).list;
    assert Outputs([], [a[0], b[1]]) == [Accept([], a[0]).out] + Outputs(l, [b[1]]);
    assert Outputs([], [a[0]] + [b[0], b[1]]) == [Accept([], a[0]).out] + ([Accept(l, b[0]).out] + Outputs(l, [b[1]]));
  }

  lemma {:induction false} PairArrives(a: seq<Packet>)
    requires |a| == 2 && Contiguous(a, 0)
    ensures Outputs([], [a[0], a[1]]) == [None, Some(Joined(a))] && ListAfter([], [a[0], a[1]]) == []
  {
    hide Outputs, ListAfter, Contiguous;
    var b := Batch(a, [0, 1]);
    assert [0, 1][..1] == [0];
    assert 1 !in [0] && 0 in [0, 1] && 1 in [0, 1];
    assert Deliver(a, [0, 1]) == [a[0], a[1]];
    OneBatch(b);
    assert Expected(b) == [None, Some(Joined(a))];
  }

  lemma {:induction false} RepeatedFirst(a: seq<Packet>, b: seq<Packet>)
    requires |a| == |b| == 2 && Contiguous(a, 0) && Contiguous(b, 0)
    ensures Accept([], a[0]).out == None &&
            Accept(Accept([], a[0]).list, b[0]) == Outcome(Accept([], a[0]).list, EXIST, None)
  {
    assert Insert([], a[0]) == Some([a[0]]);
    assert [a[0]][1..] == [];
    assert Arrived([], |a[0].data|, a[0].hdr.more) == !a[0].hdr.more;
    assert !AllArrived([a[0]]);
    var l := Accept([], a[0]).list;
    assert l == [a[0]] && Insert(l, b[0]) == None;
  }
}
