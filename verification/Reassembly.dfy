/** Reassembly of kernel/net/ip.c: the list of fragments kept for one source. */
module Reassembly {
  import opened Chunks
  import opened Checksum
  import opened Ipv4

  const FRAGS_MAX := 10

  /** A received packet: its header fields, the header bytes as stored, and its data. */
  datatype RawPacket = RawPacket(hdr: Header, head: seq<Byte>, data: seq<Byte>) {
    predicate Wf() {
      |head| == 4 * hdr.shdr && hdr.totalLen == |head| + |data|
    }
  }

  type Packet = p: RawPacket | p.Wf()
    witness RawPacket(Header(0, 0, 0, 0, 0, 0, false, false, false, 0, 0, 0, [0, 0, 0, 0], [0, 0, 0, 0]), [], [])

  /** get_frag_start. */
  function Start(p: Packet): (r: nat) {
    8 * p.hdr.offset as int
  }

  /** get_frag_end, a 16-bit value. */
  function End(p: Packet): (r: nat)
    ensures r < TWO16
  {
    (Start(p) + (p.hdr.totalLen - 4 * p.hdr.shdr)) % TWO16
  }

  /** The end of a fragment is where its data ends, unless that is beyond 16 bits. */
  lemma {:induction false} EndExactIff(p: Packet)
    ensures End(p) == Start(p) + |p.data| <==> Start(p) + |p.data| < TWO16
    ensures End(p) % TWO16 == (Start(p) + |p.data|) % TWO16
  {
  }

  /** frag_insert on the list alone: in front of the first fragment that starts at or behind
      the end of `p`; None for a fragment that is already there. */
  function Insert(list: seq<Packet>, p: Packet): (r: Option<seq<Packet>>) {
    if list == [] then Some([p])
    else if Start(p) == Start(list[0]) then None
    else if End(p) <= Start(list[0]) then Some([p] + list)
    else match Insert(list[1..], p)
         case None => None
         case Some(rest) => Some([list[0]] + rest)
  }

  /** The loop of frag_all_arrived from byte `off` on; `more` is the flag of the fragment before. */
  predicate Arrived(list: seq<Packet>, off: nat, more: bool) {
    if list == [] then !more
    else Start(list[0]) == off && Arrived(list[1..], off + |list[0].data|, list[0].hdr.more)
  }

  predicate AllArrived(list: seq<Packet>) {
    list != [] && Arrived(list, 0, true)
  }

  function DataOf(list: seq<Packet>): (r: seq<Byte>) {
    if list == [] then [] else list[0].data + DataOf(list[1..])
  }

  /** frag_join: the first packet with its header, then the data of the others. */
  function Joined(list: seq<Packet>): (r: seq<Byte>)
    requires list != []
  {
    list[0].head + DataOf(list)
  }

  /** What one fragment does to the list of its source; the empty list stands for no entry. */
  datatype Outcome = Outcome(list: seq<Packet>, err: NetErr, out: Option<seq<Byte>>)

  function Accept(list: seq<Packet>, p: Packet): (r: Outcome) {
    if |list| >= FRAGS_MAX then Outcome([], FULL, None)
    else match Insert(list, p)
         case None => Outcome(list, EXIST, None)
         case Some(l) =>
           if AllArrived(l) then Outcome([], OK, Some(Joined(l))) else Outcome(l, OK, None)
  }

  // ------------------------------------------------------------------ the loops of ip.c

  /** The insertion into `list`, given the insertion into its tail from `i` on. */
  ghost predicate InsertFrom(list: seq<Packet>, p: Packet, i: nat)
    requires i <= |list|
  {
    match Insert(list[i..], p)
    case None => Insert(list, p) == None
    case Some(rest) => Insert(list, p) == Some(list[..i] + rest)
  }

  lemma {:induction false} InsertFromStart(list: seq<Packet>, p: Packet)
    ensures InsertFrom(list, p, 0)
  {
    assert list[0..] == list;
    if Insert(list, p).Some? {
      assert list[..0] + Insert(list, p).value == Insert(list, p).value;
    }
  }

  lemma {:induction false} InsertFromNext(list: seq<Packet>, p: Packet, i: nat)
    requires i < |list| && InsertFrom(list, p, i)
    ensures Start(p) == Start(list[i]) ==> Insert(list, p) == None
    ensures Start(p) != Start(list[i]) && End(p) <= Start(list[i]) ==>
              Insert(list, p) == Some(list[..i] + [p] + list[i..])
    ensures Start(p) != Start(list[i]) && End(p) > Start(list[i]) ==> InsertFrom(list, p, i + 1)
  {
    assert list[i..][0] == list[i] && list[i..][1..] == list[i + 1..];
    assert list[..i] + ([p] + list[i..]) == list[..i] + [p] + list[i..];
    if Insert(list[i + 1..], p).Some? {
      var rest := Insert(list[i + 1..], p).value;
      assert list[..i] + ([list[i]] + rest) == list[..i + 1] + rest;
    }
  }

  lemma {:induction false} InsertFromEnd(list: seq<Packet>, p: Packet)
    requires InsertFrom(list, p, |list|)
    ensures Insert(list, p) == Some(list + [p])
  {
    assert list[|list|..] == [] && list[..|list|] == list;
  }

  // ------------------------------------------------------------------ soundness

  /** Where the data of fragment `k` ends up in the joined data. */
  function Before(list: seq<Packet>, k: nat): (r: nat)
    requires k <= |list|
  {
    if k == 0 then 0 else |list[0].data| + Before(list[1..], k - 1)
  }

  lemma {:induction false} SliceBehind(a: seq<Byte>, s: seq<Byte>, b: nat, n: nat)
    requires b + n <= |s|
    ensures (a + s)[|a| + b..|a| + b + n] == s[b..b + n]
  {
  }

  lemma {:induction false} ArrivedAt(list: seq<Packet>, off: nat, more: bool, k: nat)
    requires Arrived(list, off, more) && k < |list|
    ensures Start(list[k]) == off + Before(list, k)
    ensures Before(list, k) + |list[k].data| <= |DataOf(list)|
    ensures DataOf(list)[Before(list, k)..Before(list, k) + |list[k].data|] == list[k].data
    ensures k + 1 == |list| ==> !list[k].hdr.more && Before(list, k) + |list[k].data| == |DataOf(list)|
  {
    if k > 0 {
      ArrivedAt(list[1..], off + |list[0].data|, list[0].hdr.more, k - 1);
      SliceBehind(list[0].data, DataOf(list[1..]), Before(list[1..], k - 1), |list[k].data|);
    } else if |list| == 1 {
      assert list[1..] == [];
      assert DataOf(list) == list[0].data + [];
    }
  }

  /** Whatever fragments were received: if frag_all_arrived is true then the joined data holds
      the data of every fragment exactly at that fragment's offset, each fragment starts where
      the one before it ends, and the last one is the only one that can end the datagram. */
  lemma {:induction false} ReassemblySound(list: seq<Packet>, k: nat)
    requires AllArrived(list) && k < |list|
    ensures var s := Start(list[k]);
            && s + |list[k].data| <= |DataOf(list)| && DataOf(list)[s..s + |list[k].data|] == list[k].data
            && (k == 0 ==> s == 0)
            && (if k + 1 < |list| then Start(list[k + 1]) == s + |list[k].data|
                else !list[k].hdr.more && s + |list[k].data| == |DataOf(list)|)
  {
    ArrivedAt(list, 0, true, k);
    if k + 1 < |list| {
      ArrivedAt(list, 0, true, k + 1);
      BeforeNext(list, k);
    }
  }

  lemma {:induction false} BeforeNext(list: seq<Packet>, k: nat)
    requires k < |list|
    ensures Before(list, k + 1) == Before(list, k) + |list[k].data|
  {
    if k > 0 {
      BeforeNext(list[1..], k - 1);
    }
  }

  // ------------------------------------------------------------------ round trip

  /** The fragments of one datagram from byte `s` on: back to back, none empty, and all but the
      last one flagged `more`. */
  predicate Contiguous(fs: seq<Packet>, s: nat) {
    && fs != [] && Start(fs[0]) == s && fs[0].data != [] && s + |fs[0].data| < TWO16
    && fs[0].hdr.more == (|fs| > 1)
    && (|fs| > 1 ==> Contiguous(fs[1..], s + |fs[0].data|))
  }

  /** The fragments that have been received, in order. */
  function Pick(fs: seq<Packet>, have: seq<bool>): (r: seq<Packet>)
    requires |have| == |fs|
  {
    if fs == [] then [] else (if have[0] then [fs[0]] else []) + Pick(fs[1..], have[1..])
  }

  function CountTrue(have: seq<bool>): (r: nat)
    ensures r <= |have|
  {
    if have == [] then 0 else (if have[0] then 1 else 0) + CountTrue(have[1..])
  }

  predicate All(have: seq<bool>) {
    forall i :: 0 <= i < |have| ==> have[i]
  }

  lemma {:induction false} ContiguousAt(fs: seq<Packet>, s: nat, d: nat)
    requires Contiguous(fs, s) && d < |fs|
    ensures Start(fs[d]) >= if d == 0 then s else s + |fs[0].data|
    ensures Start(fs[d]) < Start(fs[d]) + |fs[d].data| == End(fs[d])
  {
    if d > 0 {
      ContiguousAt(fs[1..], s + |fs[0].data|, d - 1);
    }
  }

  lemma {:induction false} PickFirst(fs: seq<Packet>, have: seq<bool>, s: nat)
    requires Contiguous(fs, s) && |have| == |fs| && Pick(fs, have) != []
    ensures Start(Pick(fs, have)[0]) >= s
    ensures !have[0] ==> Start(Pick(fs, have)[0]) >= s + |fs[0].data|
  {
    if !have[0] {
      PickFirst(fs[1..], have[1..], s + |fs[0].data|);
    }
  }

  lemma {:induction false} PickSize(fs: seq<Packet>, have: seq<bool>)
    requires |have| == |fs|
    ensures |Pick(fs, have)| == CountTrue(have)
  {
    if fs != [] {
      PickSize(fs[1..], have[1..]);
    }
  }

  lemma {:induction false} PickAll(fs: seq<Packet>, have: seq<bool>)
    requires |have| == |fs| && All(have)
    ensures Pick(fs, have) == fs && CountTrue(have) == |fs|
  {
    if fs != [] {
      PickAll(fs[1..], have[1..]);
    }
  }

  lemma {:induction false} CountAll(have: seq<bool>)
    ensures All(have) <==> CountTrue(have) == |have|
  {
    if have != [] {
      CountAll(have[1..]);
      assert All(have) <==> have[0] && All(have[1..]);
    }
  }

  lemma {:induction false} CountSet(have: seq<bool>, d: nat)
    requires d < |have| && !have[d]
    ensures CountTrue(have[d := true]) == CountTrue(have) + 1
  {
    if d > 0 {
      CountSet(have[1..], d - 1);
      assert have[d := true][1..] == have[1..][d - 1 := true];
    } else {
      assert have[d := true][1..] == have[1..];
    }
  }

  lemma {:induction false} InsertPickFirst(fs: seq<Packet>, have: seq<bool>, s: nat)
    requires Contiguous(fs, s) && |have| == |fs| && fs != []
    ensures Insert(Pick(fs, have), fs[0]) == if have[0] then None else Some(Pick(fs, have[0 := true]))
  {
    ContiguousAt(fs, s, 0);
    assert have[0 := true][1..] == have[1..];
    var rest := Pick(fs[1..], have[1..]);
    assert Pick(fs, have[0 := true]) == [fs[0]] + rest;
    if !have[0] {
      assert Pick(fs, have) == rest;
      if rest != [] {
        PickFirst(fs, have, s);
      } else {
        assert [fs[0]] + rest == [fs[0]];
      }
    }
  }

  /** A later fragment goes behind an earlier one. */
  lemma {:induction false} GoesBehind(fs: seq<Packet>, s: nat, d: nat)
    requires Contiguous(fs, s) && 0 < d < |fs|
    ensures Start(fs[d]) != Start(fs[0]) && End(fs[d]) > Start(fs[0])
  {
    ContiguousAt(fs, s, d);
  }

  /** frag_insert puts a new fragment where it belongs and rejects a repeated one. */
  lemma {:induction false} InsertPick(fs: seq<Packet>, have: seq<bool>, s: nat, d: nat)
    requires Contiguous(fs, s) && |have| == |fs| && d < |fs|
    ensures Insert(Pick(fs, have), fs[d]) == if have[d] then None else Some(Pick(fs, have[d := true]))
  {
    hide Start, End;
    if d == 0 {
      InsertPickFirst(fs, have, s);
    } else {
      GoesBehind(fs, s, d);
      InsertPick(fs[1..], have[1..], s + |fs[0].data|, d - 1);
      assert have[d := true][1..] == have[1..][d - 1 := true];
      var list, tail := Pick(fs, have), Pick(fs[1..], have[1..]);
      if have[0] {
        assert list[1..] == tail;
      } else {
        assert list == tail;
        assert Pick(fs, have[d := true]) == Pick(fs[1..], have[d := true][1..]);
      }
    }
  }

  /** frag_all_arrived is true exactly when no fragment is missing. */
  lemma {:induction false} ArrivedPick(fs: seq<Packet>, have: seq<bool>, s: nat)
    requires Contiguous(fs, s) && |have| == |fs|
    ensures Arrived(Pick(fs, have), s, true) <==> All(have)
  {
    if have[0] {
      var list := Pick(fs, have);
      assert list[1..] == Pick(fs[1..], have[1..]);
      assert All(have) <==> All(have[1..]);
      if |fs| > 1 {
        ArrivedPick(fs[1..], have[1..], s + |fs[0].data|);
      }
    } else if Pick(fs, have) != [] {
      PickFirst(fs, have, s);
    }
  }

  /** One delivery, described by the set of fragments received so far. */
  lemma {:induction false} AcceptPick(fs: seq<Packet>, have: seq<bool>, d: nat)
    requires Contiguous(fs, 0) && |have| == |fs| && d < |fs|
    ensures Accept(Pick(fs, have), fs[d]) ==
            if CountTrue(have) >= FRAGS_MAX then Outcome([], FULL, None)
            else if have[d] then Outcome(Pick(fs, have), EXIST, None)
            else if All(have[d := true]) then Outcome([], OK, Some(Joined(fs)))
            else Outcome(Pick(fs, have[d := true]), OK, None)
  {
    hide Insert, Pick, Arrived, CountTrue, Contiguous;
    PickSize(fs, have);
    InsertPick(fs, have, 0, d);
    ArrivedPick(fs, have[d := true], 0);
    if !have[d] {
      PickSize(fs, have[d := true]);
      CountSet(have, d);
      if All(have[d := true]) {
        PickAll(fs, have[d := true]);
      }
    }
  }

  /** The data handed up while the given packets of one source arrive. */
  function Outputs(list: seq<Packet>, ps: seq<Packet>): (r: seq<Option<seq<Byte>>>)
    ensures |r| == |ps|
    decreases |ps|
  {
    if ps == [] then []
    else var o := Accept(list, ps[0]);
         [o.out] + Outputs(o.list, ps[1..])
  }

  /** The packets that a sequence of fragment numbers delivers. */
  function Deliver(fs: seq<Packet>, ds: seq<nat>): (r: seq<Packet>)
    requires forall i :: 0 <= i < |ds| ==> ds[i] < |fs|
    ensures |r| == |ds| && forall i :: 0 <= i < |ds| ==> r[i] == fs[ds[i]]
  {
    seq(|ds|, i requires 0 <= i < |ds| => fs[ds[i]])
  }

  /** The fragments received since the last datagram was handed up, after fragment `d`. */
  function Mark(have: seq<bool>, d: nat): (r: seq<bool>)
    requires d < |have|
    ensures |r| == |have|
  {
    var now := have[d := true];
    if All(now) then seq(|have|, i => false) else now
  }

  /** When a datagram is complete: at every delivery after which no fragment has been missing
      since the last completion. */
  function Completions(have: seq<bool>, ds: seq<nat>): (r: seq<bool>)
    requires forall i :: 0 <= i < |ds| ==> ds[i] < |have|
    ensures |r| == |ds|
    decreases |ds|
  {
    if ds == [] then [] else [All(have[ds[0] := true])] + Completions(Mark(have, ds[0]), ds[1..])
  }

  lemma {:induction false} PickNone(fs: seq<Packet>, have: seq<bool>)
    requires |have| == |fs| && forall i :: 0 <= i < |have| ==> !have[i]
    ensures Pick(fs, have) == [] && CountTrue(have) == 0
  {
    if fs != [] {
      PickNone(fs[1..], have[1..]);
    }
  }

  lemma {:induction false} AcceptMark(fs: seq<Packet>, have: seq<bool>, d: nat)
    requires Contiguous(fs, 0) && |fs| <= FRAGS_MAX && |have| == |fs| && !All(have) && d < |fs|
    ensures var o := Accept(Pick(fs, have), fs[d]);
            && o.list == Pick(fs, Mark(have, d)) && !All(Mark(have, d))
            && o.out == if All(have[d := true]) then Some(Joined(fs)) else None
  {
    AcceptPick(fs, have, d);
    CountAll(have);
    if have[d] {
      assert have[d := true] == have;
    } else if All(have[d := true]) {
      PickNone(fs, Mark(have, d));
    }
  }

  /** The round trip for one source: whatever fragments are delivered in whatever order and
      however often, the datagram is handed up at exactly the deliveries that complete it. */
  lemma {:induction false} RoundTrip(fs: seq<Packet>, have: seq<bool>, ds: seq<nat>)
    requires Contiguous(fs, 0) && |fs| <= FRAGS_MAX && |have| == |fs| && !All(have)
    requires forall i :: 0 <= i < |ds| ==> ds[i] < |fs|
    ensures forall k :: 0 <= k < |ds| ==>
              Outputs(Pick(fs, have), Deliver(fs, ds))[k] ==
              if Completions(have, ds)[k] then Some(Joined(fs)) else None
    decreases |ds|
  {
    if ds != [] {
      AcceptMark(fs, have, ds[0]);
      RoundTrip(fs, Mark(have, ds[0]), ds[1..]);
      assert Deliver(fs, ds)[1..] == Deliver(fs, ds[1..]);
    }
  }

  /** No delivery of more than ten fragments, in whatever order, ever hands up a datagram. */
  lemma {:induction false} TooManyFragments(fs: seq<Packet>, have: seq<bool>, ds: seq<nat>)
    requires Contiguous(fs, 0) && |fs| > FRAGS_MAX && |have| == |fs| && CountTrue(have) <= FRAGS_MAX
    requires forall i :: 0 <= i < |ds| ==> ds[i] < |fs|
    ensures forall k :: 0 <= k < |ds| ==> Outputs(Pick(fs, have), Deliver(fs, ds))[k] == None
    decreases |ds|
  {
    if ds != [] {
      var d, none := ds[0], seq(|fs|, i => false);
      AcceptPick(fs, have, d);
      PickNone(fs, none);
      assert Deliver(fs, ds)[1..] == Deliver(fs, ds[1..]);
      if CountTrue(have) >= FRAGS_MAX {
        TooManyFragments(fs, none, ds[1..]);
      } else if have[d] {
        TooManyFragments(fs, have, ds[1..]);
      } else {
        CountSet(have, d);
        CountAll(have[d := true]);
        TooManyFragments(fs, have[d := true], ds[1..]);
      }
    }
  }

  /** `ds` delivers every one of `n` fragments. */
  ghost predicate Covers(ds: seq<nat>, n: nat) {
    forall i :: 0 <= i < n ==> i in ds
  }

  ghost predicate Marked(have: seq<bool>, ds: seq<nat>) {
    forall i :: 0 <= i < |have| ==> (have[i] <==> i in ds)
  }

  /** Nothing is handed up before the last missing fragment arrives, and the whole datagram is
      when it does. */
  lemma {:induction false} HandedUpWithLastMissing(fs: seq<Packet>, ds: seq<nat>, k: nat)
    requires Contiguous(fs, 0) && |fs| <= FRAGS_MAX && k < |ds|
    requires forall i :: 0 <= i < |ds| ==> ds[i] < |fs|
    requires !Covers(ds[..k], |fs|) && Covers(ds[..k + 1], |fs|)
    ensures forall i :: 0 <= i < k ==> Outputs([], Deliver(fs, ds))[i] == None
    ensures Outputs([], Deliver(fs, ds))[k] == Some(Joined(fs))
  {
    var none := seq(|fs|, i => false);
    PickNone(fs, none);
    RoundTrip(fs, none, ds);
    assert [] + ds[..k] == ds[..k] && [] + ds[..k + 1] == ds[..k + 1];
    FirstCompletion(none, [], ds, k);
  }

  lemma {:induction false} FirstCompletion(have: seq<bool>, past: seq<nat>, ds: seq<nat>, k: nat)
    requires k < |ds| && Marked(have, past) && (forall i :: 0 <= i < |ds| ==> ds[i] < |have|)
    requires !Covers(past + ds[..k], |have|) && Covers(past + ds[..k + 1], |have|)
    ensures forall i :: 0 <= i < k ==> !Completions(have, ds)[i]
    ensures Completions(have, ds)[k]
    decreases k
  {
    var now, past' := have[ds[0] := true], past + [ds[0]];
    assert Marked(now, past');
    assert past + ds[..k + 1] == past' + ds[1..][..k];
    if k == 0 {
      assert past + ds[..1] == past';
    } else {
      assert past + ds[..k] == past' + ds[1..][..k - 1];
      assert !Covers(past', |have|);
      assert !All(now);
      FirstCompletion(now, past', ds[1..], k - 1);
    }
  }

  /** frag_find does not compare the identification field, so the first half of one datagram
      and the second half of another one from the same source make a datagram of their own. */
  lemma {:induction false} MixesDatagrams(a: seq<Packet>, b: seq<Packet>)
    requires |a| == |b| == 2 && Contiguous(a, 0) && Contiguous(b, 0) && |a[0].data| == |b[0].data|
    ensures Outputs([], [a[0], b[1]]) == [None, Some(a[0].head + (a[0].data + b[1].data))]
  {
    var mixed := [a[0], b[1]];
    assert a[1..] == [a[1]] && b[1..] == [b[1]] && mixed[1..] == [b[1]];
    assert Contiguous(mixed, 0);
    assert Deliver(mixed, [0, 1]) == mixed;
    assert [0, 1][..1] == [0] && [0, 1][..2] == [0, 1];
    assert Covers([0, 1], 2);
    assert 1 !in [0];
    HandedUpWithLastMissing(mixed, [0, 1], 1);
    assert [b[1]][1..] == [] && DataOf([b[1]]) == b[1].data + [];
    assert DataOf(mixed) == a[0].data + b[1].data;
  }
}
