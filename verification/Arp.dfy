/** The address cache of kernel/net/arp.c (RFC 826): entries in order of use, packets that wait for
    an address, and eviction of the last entry. */
module Arp {
  import opened Chunks
  import opened Lists

  const CACHE_SIZE := 50
  const PENDING_MAX := 50

  type Ip = nat
  type Hw = nat
  type Pkt = nat

  /** arp_entry_t: an address that is known or waited for, and the packets that wait for it. The
      hardware address of an entry that waits is None: it was never set. */
  datatype Entry = Entry(ip: Ip, hw: Option<Hw>, resolved: bool, bufs: seq<Pkt>)

  /** A packet sent to a hardware address, which may be unset. */
  datatype Frame = Frame(pkt: Pkt, hw: Option<Hw>)

  /** cache_list and the number of entries left in cache_mblock; and the packets put in a queue so
      far, sent from one, and freed with or from one. */
  datatype Cache = Cache(list: seq<Entry>, free: nat, queued: seq<Pkt>, sent: seq<Frame>, dropped: seq<Pkt>)

  // ------------------------------------------------------------------ operations

  /** Where an address is in the list; its length if it is nowhere. */
  function IndexOf(list: seq<Entry>, ip: Ip): (r: nat)
    ensures r <= |list| && (r < |list| ==> list[r].ip == ip) && forall i :: 0 <= i < r ==> list[i].ip != ip
  {
    if list == [] || list[0].ip == ip then 0 else 1 + IndexOf(list[1..], ip)
  }

  function Cut(list: seq<Entry>, i: nat): (r: seq<Entry>)
    requires i < |list|
  {
    list[..i] + list[i + 1..]
  }

  /** cache_find: an entry that is found moves to the front. */
  function Found(c: Cache, ip: Ip): (r: Cache) {
    var i := IndexOf(c.list, ip);
    if i < |c.list| then c.(list := [c.list[i]] + Cut(c.list, i)) else c
  }

  /** cache_alloc: a free entry, or with `force` the last one, whose packets are freed. */
  function Allocated(c: Cache, force: bool): (r: Option<Cache>) {
    if c.free > 0 then Some(c.(free := c.free - 1))
    else if !force || c.list == [] then None
    else
      var last := |c.list| - 1;
      Some(c.(list := c.list[..last], dropped := c.dropped + c.list[last].bufs))
  }

  function Frames(bufs: seq<Pkt>, hw: Option<Hw>): (r: seq<Frame>)
    ensures |r| == |bufs|
  {
    seq(|bufs|, i requires 0 <= i < |bufs| => Frame(bufs[i], hw))
  }

  /** cache_send_all on the first entry, when `good` sends succeed before one fails: the packet
      that failed is freed and the rest stays. */
  function Flushed(c: Cache, good: nat): (r: Cache)
    requires c.list != []
  {
    var e := c.list[0];
    var n := |e.bufs|;
    if good >= n then c.(list := c.list[0 := e.(bufs := [])], sent := c.sent + Frames(e.bufs, e.hw))
    else c.(list := c.list[0 := e.(bufs := e.bufs[good + 1..])],
            sent := c.sent + Frames(e.bufs[..good], e.hw), dropped := c.dropped + [e.bufs[good]])
  }

  /** cache_insert: what arp_in and arp_update_from_ipbuf do with a sender's addresses. */
  function Insert(c: Cache, ip: Ip, hw: Hw, force: bool, good: nat): (r: Cache) {
    var f := Found(c, ip);
    if IndexOf(c.list, ip) < |c.list| then
      if f.list == [] then f else Flushed(f.(list := f.list[0 := f.list[0].(hw := Some(hw), resolved := true)]), good)
    else match Allocated(f, force)
         case None => f
         case Some(a) => a.(list := [Entry(ip, Some(hw), true, [])] + a.list)
  }

  datatype Outcome = Direct(hw: Option<Hw>) | Queued | Full | NoEntry

  /** arp_resolve, up to the sending of the request. */
  function Resolve(c: Cache, ip: Ip, pkt: Pkt): (r: (Cache, Outcome)) {
    var f := Found(c, ip);
    if IndexOf(c.list, ip) < |c.list| then
      if f.list == [] then (f, NoEntry)
      else
        var e := f.list[0];
        if e.resolved then (f, Direct(e.hw))
        else if |e.bufs| > PENDING_MAX then (f, Full)
        else (f.(list := f.list[0 := e.(bufs := [pkt] + e.bufs)], queued := f.queued + [pkt]), Queued)
    else match Allocated(f, true)
         case None => (f, NoEntry)
         case Some(a) => (a.(list := a.list + [Entry(ip, None, false, [pkt])], queued := a.queued + [pkt]), Queued)
  }

  function Init(): (r: Cache) {
    Cache([], CACHE_SIZE, [], [], [])
  }

  // ------------------------------------------------------------------ the invariant

  /** At most one entry for an address. */
  ghost predicate Distinct(list: seq<Entry>) {
    forall i, j :: 0 <= i < j < |list| ==> list[i].ip != list[j].ip
  }

  /** An unresolved entry has packets waiting and no hardware address, and no entry has more than
      51 packets. */
  predicate EntryOk(e: Entry) {
    |e.bufs| <= PENDING_MAX + 1 && (e.resolved || e.bufs != []) && (e.resolved <==> e.hw.Some?)
  }

  function Count(s: seq<Pkt>, x: Pkt): (r: nat) {
    if s == [] then 0 else (if s[0] == x then 1 else 0) + Count(s[1..], x)
  }

  /** How often a packet waits, and how often it was sent from a queue. */
  function Waiting(list: seq<Entry>, x: Pkt): (r: nat) {
    if list == [] then 0 else Count(list[0].bufs, x) + Waiting(list[1..], x)
  }

  function SentCount(sent: seq<Frame>, x: Pkt): (r: nat) {
    if sent == [] then 0 else (if sent[0].pkt == x then 1 else 0) + SentCount(sent[1..], x)
  }

  /** Every packet put in a queue is there, or was sent once, or was freed once. */
  ghost predicate Conserved(c: Cache) {
    forall x: Pkt :: Count(c.queued, x) == Waiting(c.list, x) + SentCount(c.sent, x) + Count(c.dropped, x)
  }

  ghost predicate CacheInv(c: Cache) {
    && |c.list| + c.free == CACHE_SIZE && Distinct(c.list) && Conserved(c)
    && forall i :: 0 <= i < |c.list| ==> EntryOk(c.list[i])
  }

  // ------------------------------------------------------------------ counting

  lemma {:induction false} CountAppend(a: seq<Pkt>, b: seq<Pkt>, x: Pkt)
    ensures Count(a + b, x) == Count(a, x) + Count(b, x)
  {
    if a == [] {
      assert a + b == b;
    } else {
      assert (a + b)[1..] == a[1..] + b;
      CountAppend(a[1..], b, x);
    }
  }

  lemma {:induction false} SentAppend(a: seq<Frame>, b: seq<Frame>, x: Pkt)
    ensures SentCount(a + b, x) == SentCount(a, x) + SentCount(b, x)
  {
    if a == [] {
      assert a + b == b;
    } else {
      assert (a + b)[1..] == a[1..] + b;
      SentAppend(a[1..], b, x);
    }
  }

  lemma {:induction false} SentFrames(bufs: seq<Pkt>, hw: Option<Hw>, x: Pkt)
    ensures SentCount(Frames(bufs, hw), x) == Count(bufs, x)
  {
    if bufs != [] {
      SentFrames(bufs[1..], hw, x);
      assert Frames(bufs, hw)[1..] == Frames(bufs[1..], hw);
    }
  }

  lemma {:induction false} WaitingAppend(a: seq<Entry>, b: seq<Entry>, x: Pkt)
    ensures Waiting(a + b, x) == Waiting(a, x) + Waiting(b, x)
  {
    if a == [] {
      assert a + b == b;
    } else {
      assert (a + b)[1..] == a[1..] + b;
      WaitingAppend(a[1..], b, x);
    }
  }

  lemma {:induction false} WaitingOne(e: Entry, x: Pkt)
    ensures Waiting([e], x) == Count(e.bufs, x)
  {
    assert [e][1..] == [];
  }

  // ------------------------------------------------------------------ moving to the front

  lemma {:induction false} FoundList(list: seq<Entry>, i: nat, x: Pkt)
    requires i < |list|
    ensures Waiting([list[i]] + Cut(list, i), x) == Waiting(list, x)
  {
    hide Waiting;
    assert list == list[..i] + ([list[i]] + list[i + 1..]);
    WaitingAppend(list[..i], [list[i]] + list[i + 1..], x);
    WaitingAppend([list[i]], list[i + 1..], x);
    WaitingAppend([list[i]], Cut(list, i), x);
    WaitingAppend(list[..i], list[i + 1..], x);
  }

  /** The entry found stands first, the others follow in their order, and nothing else changes. */
  lemma {:induction false} FoundInv(c: Cache, ip: Ip)
    requires CacheInv(c)
    ensures CacheInv(Found(c, ip)) && |Found(c, ip).list| == |c.list|
    ensures IndexOf(c.list, ip) < |c.list| ==> Found(c, ip).list[0] == c.list[IndexOf(c.list, ip)]
    ensures IndexOf(c.list, ip) == |c.list| ==>
              Found(c, ip) == c && forall i :: 0 <= i < |c.list| ==> c.list[i].ip != ip
  {
    hide Waiting, SentCount, Count, IndexOf;
    var i := IndexOf(c.list, ip);
    if i < |c.list| {
      var r := Found(c, ip);
      forall x: Pkt ensures Waiting(r.list, x) == Waiting(c.list, x) {
        FoundList(c.list, i, x);
      }
    }
  }

  // ------------------------------------------------------------------ the steps

  /** The first entry replaced. */
  lemma {:induction false} ReplaceFirst(list: seq<Entry>, e: Entry, x: Pkt)
    requires list != []
    ensures Waiting(list[0 := e], x) == Waiting(list, x) - Count(list[0].bufs, x) + Count(e.bufs, x)
  {
    assert list[0 := e][1..] == list[1..];
  }

  lemma {:induction false} FlushCounts(c: Cache, good: nat, x: Pkt)
    requires c.list != []
    ensures var r := Flushed(c, good);
            Waiting(r.list, x) + SentCount(r.sent, x) + Count(r.dropped, x) ==
              Waiting(c.list, x) + SentCount(c.sent, x) + Count(c.dropped, x)
  {
    hide Waiting, SentCount, Count, Frames;
    var e := c.list[0];
    if good >= |e.bufs| {
      ReplaceFirst(c.list, e.(bufs := []), x);
      SentAppend(c.sent, Frames(e.bufs, e.hw), x);
      SentFrames(e.bufs, e.hw, x);
      CountNone(x);
    } else {
      ReplaceFirst(c.list, e.(bufs := e.bufs[good + 1..]), x);
      SentAppend(c.sent, Frames(e.bufs[..good], e.hw), x);
      SentFrames(e.bufs[..good], e.hw, x);
      CountAppend(c.dropped, [e.bufs[good]], x);
      CountAppend(e.bufs[..good], [e.bufs[good]] + e.bufs[good + 1..], x);
      CountAppend([e.bufs[good]], e.bufs[good + 1..], x);
      assert e.bufs == e.bufs[..good] + ([e.bufs[good]] + e.bufs[good + 1..]);
    }
  }

  lemma {:induction false} CountNone(x: Pkt)
    ensures Count([], x) == 0
  {
  }

  lemma {:induction false} FlushedInv(c: Cache, good: nat)
    requires CacheInv(c) && c.list != [] && c.list[0].resolved
    ensures CacheInv(Flushed(c, good))
  {
    hide Waiting, SentCount, Count, Frames;
    var r := Flushed(c, good);
    forall x: Pkt ensures Count(r.queued, x) == Waiting(r.list, x) + SentCount(r.sent, x) + Count(r.dropped, x) {
      FlushCounts(c, good, x);
    }
  }

  /** Renaming the address of the first entry leaves the packets alone. */
  lemma {:induction false} MarkResolved(c: Cache, hw: Hw)
    requires CacheInv(c) && c.list != []
    ensures CacheInv(c.(list := c.list[0 := c.list[0].(hw := Some(hw), resolved := true)]))
  {
    hide Waiting, SentCount, Count;
    var e := c.list[0].(hw := Some(hw), resolved := true);
    forall x: Pkt ensures Waiting(c.list[0 := e], x) == Waiting(c.list, x) {
      ReplaceFirst(c.list, e, x);
    }
  }

  /** After cache_alloc one entry is out of the cache and the list. */
  lemma {:induction false} AllocatedInv(c: Cache, force: bool)
    requires CacheInv(c) && Allocated(c, force).Some?
    ensures var a := Allocated(c, force).value;
            && |a.list| + a.free + 1 == CACHE_SIZE && Distinct(a.list) && Conserved(a)
            && (forall i :: 0 <= i < |a.list| ==> i < |c.list| && a.list[i] == c.list[i])
  {
    hide Waiting, SentCount, Count;
    var a := Allocated(c, force).value;
    if c.free == 0 {
      var last := |c.list| - 1;
      forall x: Pkt ensures Count(a.queued, x) == Waiting(a.list, x) + SentCount(a.sent, x) + Count(a.dropped, x) {
        assert c.list == c.list[..last] + [c.list[last]];
        WaitingAppend(c.list[..last], [c.list[last]], x);
        WaitingOne(c.list[last], x);
        CountAppend(c.dropped, c.list[last].bufs, x);
      }
    }
  }

  lemma {:induction false} InsertInv(c: Cache, ip: Ip, hw: Hw, force: bool, good: nat)
    requires CacheInv(c)
    ensures CacheInv(Insert(c, ip, hw, force, good))
  {
    hide Waiting, SentCount, Count, IndexOf, Flushed;
    FoundInv(c, ip);
    var f := Found(c, ip);
    if IndexOf(c.list, ip) < |c.list| {
      hide CacheInv;
      MarkResolved(f, hw);
      FlushedInv(f.(list := f.list[0 := f.list[0].(hw := Some(hw), resolved := true)]), good);
    } else if Allocated(f, force).Some? {
      AllocatedInv(f, force);
      var a := Allocated(f, force).value;
      AddEntry(a, Entry(ip, Some(hw), true, []), true);
      assert a.queued + [] == a.queued;
    }
  }

  /** A new entry without a packet at the front, or with one at the back. */
  lemma {:induction false} AddEntry(a: Cache, e: Entry, front: bool)
    requires |a.list| + a.free + 1 == CACHE_SIZE && Distinct(a.list) && Conserved(a) && EntryOk(e)
    requires forall i :: 0 <= i < |a.list| ==> EntryOk(a.list[i]) && a.list[i].ip != e.ip
    ensures CacheInv(a.(list := if front then [e] + a.list else a.list + [e], queued := a.queued + e.bufs))
  {
    hide Waiting, SentCount, Count, EntryOk;
    var r := a.(list := if front then [e] + a.list else a.list + [e], queued := a.queued + e.bufs);
    forall x: Pkt ensures Count(r.queued, x) == Waiting(r.list, x) + SentCount(r.sent, x) + Count(r.dropped, x) {
      CountAppend(a.queued, e.bufs, x);
      WaitingOne(e, x);
      WaitingAppend([e], a.list, x);
      WaitingAppend(a.list, [e], x);
    }
  }

  lemma {:induction false} ResolveInv(c: Cache, ip: Ip, pkt: Pkt)
    requires CacheInv(c)
    ensures CacheInv(Resolve(c, ip, pkt).0)
  {
    hide Waiting, SentCount, Count, IndexOf;
    FoundInv(c, ip);
    var f := Found(c, ip);
    if IndexOf(c.list, ip) < |c.list| {
      var e := f.list[0];
      if !e.resolved && |e.bufs| <= PENDING_MAX {
        QueueOne(f, pkt);
      }
    } else if Allocated(f, true).Some? {
      AllocatedInv(f, true);
      AddEntry(Allocated(f, true).value, Entry(ip, None, false, [pkt]), false);
    }
  }

  lemma {:induction false} QueueOne(f: Cache, pkt: Pkt)
    requires CacheInv(f) && f.list != [] && |f.list[0].bufs| <= PENDING_MAX
    ensures var e := f.list[0];
            CacheInv(f.(list := f.list[0 := e.(bufs := [pkt] + e.bufs)], queued := f.queued + [pkt]))
  {
    hide Waiting, SentCount, Count;
    var e := f.list[0];
    var r := f.(list := f.list[0 := e.(bufs := [pkt] + e.bufs)], queued := f.queued + [pkt]);
    forall x: Pkt ensures Count(r.queued, x) == Waiting(r.list, x) + SentCount(r.sent, x) + Count(r.dropped, x) {
      ReplaceFirst(f.list, e.(bufs := [pkt] + e.bufs), x);
      CountAppend(f.queued, [pkt], x);
      CountAppend([pkt], e.bufs, x);
    }
  }

  // ------------------------------------------------------------------ every run

  datatype Event = ResolveCall(ip: Ip, pkt: Pkt) | Receive(ip: Ip, hw: Hw, force: bool, good: nat)

  function Step(c: Cache, e: Event): (r: Cache) {
    match e
    case ResolveCall(ip, pkt) => Resolve(c, ip, pkt).0
    case Receive(ip, hw, force, good) => Insert(c, ip, hw, force, good)
  }

  function Run(c: Cache, es: seq<Event>): (r: Cache)
    decreases |es|
  {
    if es == [] then c else Run(Step(c, es[0]), es[1..])
  }

  /** Over every run of resolves and receptions, failing sends included: one entry per address,
      entries cached and free make 50, no queue exceeds 51 packets, and every packet queued still
      waits, or was sent once, or was freed once. */
  lemma {:induction false} RunInv(c: Cache, es: seq<Event>)
    requires CacheInv(c)
    ensures CacheInv(Run(c, es))
    decreases |es|
  {
    hide CacheInv, Resolve, Insert;
    if es != [] {
      match es[0] {
        case ResolveCall(ip, pkt) => ResolveInv(c, ip, pkt);
        case Receive(ip, hw, force, good) => InsertInv(c, ip, hw, force, good);
      }
      RunInv(Step(c, es[0]), es[1..]);
    }
  }

  lemma {:induction false} InitInv()
    ensures CacheInv(Init())
  {
  }

  /** A resolved entry keeps no packets. */
  ghost predicate Clean(c: Cache) {
    forall i :: 0 <= i < |c.list| && c.list[i].resolved ==> c.list[i].bufs == []
  }

  /** cache_insert leaves packets with a resolved entry exactly if a send fails and is not the
      last one: they stay behind the packet that failed. */
  lemma {:induction false} InsertCleanIff(c: Cache, ip: Ip, hw: Hw, force: bool, good: nat)
    requires CacheInv(c) && Clean(c)
    ensures var i := IndexOf(c.list, ip);
            Clean(Insert(c, ip, hw, force, good)) <==> !(i < |c.list| && good + 1 < |c.list[i].bufs|)
  {
    hide Waiting, SentCount, Count, IndexOf, Conserved, Frames;
    FoundInv(c, ip);
    FoundClean(c, ip);
    var f, i := Found(c, ip), IndexOf(c.list, ip);
    var r := Insert(c, ip, hw, force, good);
    if i < |c.list| {
      assert forall j :: 1 <= j < |f.list| ==> r.list[j] == f.list[j];
      assert r.list[0].resolved && (r.list[0].bufs == [] <==> !(good + 1 < |c.list[i].bufs|));
    } else if Allocated(f, force).Some? {
      AllocatedInv(f, force);
    }
  }

  lemma {:induction false} FoundClean(c: Cache, ip: Ip)
    requires Clean(c)
    ensures Clean(Found(c, ip))
  {
    hide IndexOf;
  }

  lemma {:induction false} ResolveClean(c: Cache, ip: Ip, pkt: Pkt)
    requires CacheInv(c) && Clean(c)
    ensures Clean(Resolve(c, ip, pkt).0)
  {
    hide Waiting, SentCount, Count, IndexOf, Conserved;
    FoundInv(c, ip);
    FoundClean(c, ip);
    var f := Found(c, ip);
    if IndexOf(c.list, ip) == |c.list| && Allocated(f, true).Some? {
      AllocatedInv(f, true);
    }
  }

  /** Every send of the run succeeds: no queue is longer than 51. */
  predicate AllSent(es: seq<Event>) {
    forall i :: 0 <= i < |es| && es[i].Receive? ==> es[i].good > PENDING_MAX
  }

  /** While all sends succeed, no resolved entry holds pending packets. */
  lemma {:induction false} RunClean(c: Cache, es: seq<Event>)
    requires CacheInv(c) && Clean(c) && AllSent(es)
    ensures Clean(Run(c, es))
    decreases |es|
  {
    hide CacheInv, Resolve, Insert, Clean;
    if es != [] {
      match es[0] {
        case ResolveCall(ip, pkt) =>
          ResolveInv(c, ip, pkt);
          ResolveClean(c, ip, pkt);
        case Receive(ip, hw, force, good) =>
          InsertInv(c, ip, hw, force, good);
          InsertCleanIff(c, ip, hw, force, good);
          ShortQueues(c, IndexOf(c.list, ip));
      }
      assert AllSent(es[1..]);
      RunClean(Step(c, es[0]), es[1..]);
    }
  }

  lemma {:induction false} ShortQueues(c: Cache, i: nat)
    requires CacheInv(c)
    ensures i < |c.list| ==> |c.list[i].bufs| <= PENDING_MAX + 1
  {
    hide Conserved, Distinct;
    assert i < |c.list| ==> EntryOk(c.list[i]);
  }

  /** From the empty cache on. */
  lemma {:induction false} FromInit(es: seq<Event>)
    ensures CacheInv(Run(Init(), es)) && (AllSent(es) ==> Clean(Run(Init(), es)))
  {
    hide CacheInv, Run, Clean;
    InitInv();
    RunInv(Init(), es);
    assert Clean(Init()) by { InitClean(); }
    if AllSent(es) {
      RunClean(Init(), es);
    }
  }

  lemma {:induction false} InitClean()
    ensures Clean(Init())
  {
  }

  // ------------------------------------------------------------------ order and eviction

  /** The entry of an address. */
  function Lookup(list: seq<Entry>, ip: Ip): (r: Option<Entry>)
    ensures r.Some? ==> r.value in list && r.value.ip == ip
  {
    var i := IndexOf(list, ip);
    if i < |list| then Some(list[i]) else None
  }

  /** The address is asked for and not known yet. */
  predicate Awaited(c: Cache, ip: Ip) {
    var e := Lookup(c.list, ip);
    e.Some? && !e.value.resolved
  }

  lemma {:induction false} LookupAt(list: seq<Entry>, i: nat)
    requires Distinct(list) && i < |list|
    ensures Lookup(list, list[i].ip) == Some(list[i])
  {
    hide IndexOf;
  }

  lemma {:induction false} LookupNone(list: seq<Entry>, ip: Ip)
    requires forall i :: 0 <= i < |list| ==> list[i].ip != ip
    ensures Lookup(list, ip) == None
  {
  }

  /** Every entry of `a` for `ip` is in `b`. */
  lemma {:induction false} LookupSub(a: seq<Entry>, b: seq<Entry>, ip: Ip)
    requires Distinct(a) && Distinct(b)
    requires forall i :: 0 <= i < |b| && b[i].ip == ip ==> b[i] in a
    ensures Lookup(b, ip) == Lookup(a, ip) || Lookup(b, ip) == None
  {
    hide IndexOf, Lookup;
    if i :| 0 <= i < |b| && b[i].ip == ip {
      LookupAt(b, i);
      var j :| 0 <= j < |a| && a[j] == b[i];
      LookupAt(a, j);
    } else {
      LookupNone(b, ip);
    }
  }

  lemma {:induction false} FoundSub(c: Cache, ip: Ip)
    ensures forall i :: 0 <= i < |Found(c, ip).list| ==> Found(c, ip).list[i] in c.list
  {
    hide IndexOf;
  }

  lemma {:induction false} AllocatedSub(c: Cache, force: bool)
    requires Allocated(c, force).Some?
    ensures forall i :: 0 <= i < |Allocated(c, force).value.list| ==> Allocated(c, force).value.list[i] in c.list
  {
  }

  /** A call for another address leaves the entry as it is, or evicts it. */
  lemma {:induction false} OtherResolve(c: Cache, ip: Ip, pkt: Pkt, other: Ip)
    requires CacheInv(c) && ip != other
    ensures var r := Lookup(Resolve(c, ip, pkt).0.list, other); r == Lookup(c.list, other) || r == None
  {
    hide Conserved, EntryOk, Lookup, IndexOf;
    var f := Found(c, ip);
    FoundSub(c, ip);
    FoundInv(c, ip);
    ResolveInv(c, ip, pkt);
    if IndexOf(c.list, ip) == |c.list| && Allocated(f, true).Some? {
      AllocatedSub(f, true);
    }
    LookupSub(c.list, Resolve(c, ip, pkt).0.list, other);
  }

  lemma {:induction false} OtherInsert(c: Cache, ip: Ip, hw: Hw, force: bool, good: nat, other: Ip)
    requires CacheInv(c) && ip != other
    ensures var r := Lookup(Insert(c, ip, hw, force, good).list, other); r == Lookup(c.list, other) || r == None
  {
    hide Conserved, EntryOk, Lookup, IndexOf, Frames;
    var f := Found(c, ip);
    FoundSub(c, ip);
    FoundInv(c, ip);
    InsertInv(c, ip, hw, force, good);
    if IndexOf(c.list, ip) == |c.list| && Allocated(f, force).Some? {
      AllocatedSub(f, force);
    }
    LookupSub(c.list, Insert(c, ip, hw, force, good).list, other);
  }

  /** A call for the address itself. */
  lemma {:induction false} OwnResolve(c: Cache, ip: Ip, pkt: Pkt)
    requires CacheInv(c)
    ensures var (r, outcome) := Resolve(c, ip, pkt); var e := Lookup(c.list, ip);
            && (outcome == Queued ==>
                  Lookup(r.list, ip) == Some(if e.None? then Entry(ip, None, false, [pkt])
                                             else e.value.(bufs := [pkt] + e.value.bufs)))
            && (outcome == Queued && e.Some? ==> !e.value.resolved)
            && (outcome != Queued ==> Lookup(r.list, ip) == e)
  {
    hide Conserved, EntryOk, IndexOf;
    FoundInv(c, ip);
    ResolveInv(c, ip, pkt);
    var f, r := Found(c, ip), Resolve(c, ip, pkt).0;
    if IndexOf(c.list, ip) < |c.list| {
      LookupAt(r.list, 0);
    } else if Allocated(f, true).Some? {
      LookupAt(r.list, |r.list| - 1);
    }
  }

  lemma {:induction false} OwnInsert(c: Cache, ip: Ip, hw: Hw, force: bool, good: nat)
    requires CacheInv(c)
    ensures !Awaited(Insert(c, ip, hw, force, good), ip)
  {
    hide Conserved, EntryOk, IndexOf, Frames;
    FoundInv(c, ip);
    InsertInv(c, ip, hw, force, good);
    var r := Insert(c, ip, hw, force, good);
    if IndexOf(c.list, ip) < |c.list| || Allocated(Found(c, ip), force).Some? {
      LookupAt(r.list, 0);
    }
  }

  /** `log` holds the packets queued for the address since its entry was opened; brought up to
      date by one event. */
  function Logged(c: Cache, e: Event, ip: Ip, log: seq<Pkt>): (r: seq<Pkt>) {
    if !Awaited(Step(c, e), ip) then []
    else if e.ResolveCall? && e.ip == ip && Resolve(c, ip, e.pkt).1 == Queued then log + [e.pkt]
    else log
  }

  function Log(c: Cache, es: seq<Event>, ip: Ip, log: seq<Pkt>): (r: seq<Pkt>)
    decreases |es|
  {
    if es == [] then log else Log(Step(c, es[0]), es[1..], ip, Logged(c, es[0], ip, log))
  }

  ghost predicate QueueIs(c: Cache, ip: Ip, log: seq<Pkt>) {
    if Awaited(c, ip) then Lookup(c.list, ip).value.bufs == Reversed(log) else log == []
  }

  lemma {:induction false} QueueStep(c: Cache, e: Event, ip: Ip, log: seq<Pkt>)
    requires CacheInv(c) && QueueIs(c, ip, log)
    ensures QueueIs(Step(c, e), ip, Logged(c, e, ip, log))
  {
    hide CacheInv, Resolve, Insert, Lookup, Reversed;
    match e {
      case ResolveCall(to, pkt) =>
        if to == ip {
          OwnResolve(c, ip, pkt);
          RevMore(log, pkt);
        } else {
          OtherResolve(c, to, pkt, ip);
        }
      case Receive(from, hw, force, good) =>
        if from == ip {
          OwnInsert(c, ip, hw, force, good);
        } else {
          OtherInsert(c, from, hw, force, good, ip);
        }
    }
  }

  /** Over every run, with other addresses asked for, learned and evicted in between: the packets
      that wait for an address are those queued for it since its entry was opened, newest first. */
  lemma {:induction false} QueueNewestFirst(c: Cache, es: seq<Event>, ip: Ip, log: seq<Pkt>)
    requires CacheInv(c) && QueueIs(c, ip, log)
    ensures QueueIs(Run(c, es), ip, Log(c, es, ip, log))
    decreases |es|
  {
    hide CacheInv, QueueIs, Step, Logged;
    if es != [] {
      QueueStep(c, es[0], ip, log);
      assert [es[0]][1..] == [] && Run(c, [es[0]]) == Step(c, es[0]);
      RunInv(c, [es[0]]);
      QueueNewestFirst(Step(c, es[0]), es[1..], ip, Logged(c, es[0], ip, log));
    }
  }

  /** So whatever the calls of arp_resolve were (ether_out, its one caller in the program, never
      queues two packets: see Ether), an answer sends the packets that wait for the
      address last come, first served, up to the first send that fails. */
  lemma {:induction false} SendsNewestFirst(es: seq<Event>, ip: Ip, hw: Hw, force: bool, good: nat)
    requires Awaited(Run(Init(), es), ip)
    ensures var c := Run(Init(), es); var order := Reversed(Log(Init(), es, ip, []));
            && Lookup(c.list, ip).value.bufs == order != []
            && Insert(c, ip, hw, force, good).sent == c.sent + Frames(order[..Min(good, |order|)], Some(hw))
  {
    hide Run, Frames, Reversed, Log, Conserved, IndexOf;
    InitInv();
    RunInv(Init(), es);
    QueueNewestFirst(Init(), es, ip, []);
    var c := Run(Init(), es);
    FoundInv(c, ip);
    var i := IndexOf(c.list, ip);
    assert EntryOk(c.list[i]);
    var order := c.list[i].bufs;
    assert good >= |order| ==> order[..Min(good, |order|)] == order;
  }

  /** The addresses in the order of the list. */
  function Order(list: seq<Entry>): (r: seq<nat>)
    ensures |r| == |list| && forall i :: 0 <= i < |list| ==> r[i] == list[i].ip
  {
    seq(|list|, i requires 0 <= i < |list| => list[i].ip)
  }

  lemma {:induction false} RemoveAt(s: seq<nat>, i: nat, t: nat)
    requires i < |s| && s[i] == t && forall j :: 0 <= j < i ==> s[j] != t
    ensures Remove(s, t) == s[..i] + s[i + 1..]
  {
    if i > 0 {
      RemoveAt(s[1..], i - 1, t);
      assert s[..i] + s[i + 1..] == [s[0]] + (s[1..][..i - 1] + s[1..][i..]);
    }
  }

  lemma {:induction false} FoundOrder(c: Cache, ip: Ip)
    ensures Order(Found(c, ip).list) ==
            if ip in Order(c.list) then [ip] + Remove(Order(c.list), ip) else Order(c.list)
  {
    hide IndexOf, Remove;
    var i, o := IndexOf(c.list, ip), Order(c.list);
    if i < |c.list| {
      assert o[i] == ip;
      RemoveAt(o, i, ip);
      assert Order(Found(c, ip).list) == [ip] + (o[..i] + o[i + 1..]);
    }
  }

  /** Where the addresses stand after a call. One that is used comes first; a new one stands first if
      it was learned and last if it is only asked for; the last one goes if there is no room; and the
      others keep their order. */
  lemma {:induction false} ResolveOrder(c: Cache, ip: Ip, pkt: Pkt)
    requires CacheInv(c)
    ensures var o := Order(c.list);
            Order(Resolve(c, ip, pkt).0.list) ==
            if ip in o then [ip] + Remove(o, ip) else (if c.free > 0 then o else o[..|o| - 1]) + [ip]
  {
    hide Conserved, Distinct, EntryOk, Remove;
    FoundOrder(c, ip);
    FoundInv(c, ip);
    var i, f := IndexOf(c.list, ip), Found(c, ip);
    hide IndexOf, Found;
    assert i < |c.list| ==> Order(c.list)[i] == ip;
    var r := Resolve(c, ip, pkt).0;
    if i < |c.list| {
      assert Order(r.list) == Order(f.list);
    } else {
      var a := Allocated(f, true).value;
      assert Order(a.list) == if c.free > 0 then Order(c.list) else Order(c.list)[..|c.list| - 1];
      assert Order(r.list) == Order(a.list) + [ip];
    }
  }

  lemma {:induction false} InsertOrder(c: Cache, ip: Ip, hw: Hw, force: bool, good: nat)
    requires CacheInv(c)
    ensures var o := Order(c.list);
            Order(Insert(c, ip, hw, force, good).list) ==
            if ip in o then [ip] + Remove(o, ip)
            else if c.free > 0 then [ip] + o
            else if force then [ip] + o[..|o| - 1] else o
  {
    hide Conserved, Distinct, EntryOk, Remove, Frames;
    FoundOrder(c, ip);
    FoundInv(c, ip);
    var i, f := IndexOf(c.list, ip), Found(c, ip);
    hide IndexOf, Found;
    assert i < |c.list| ==> Order(c.list)[i] == ip;
    var r := Insert(c, ip, hw, force, good);
    if i < |c.list| {
      assert Order(r.list) == Order(f.list);
    } else if Allocated(f, force).Some? {
      var a := Allocated(f, force).value;
      assert Order(a.list) == if c.free > 0 then Order(c.list) else Order(c.list)[..|c.list| - 1];
      assert Order(r.list) == [ip] + Order(a.list);
    }
  }

  /** What arp_resolve answers: it sends to a known address, refuses the packet when 51 wait for the
      address already, and queues it otherwise. */
  lemma {:induction false} ResolveOutcome(c: Cache, ip: Ip, pkt: Pkt)
    requires CacheInv(c)
    ensures var e, outcome := Lookup(c.list, ip), Resolve(c, ip, pkt).1;
            && (outcome.Direct? <==> e.Some? && e.value.resolved) && (outcome.Direct? ==> outcome.hw == e.value.hw)
            && (outcome == Full <==> e.Some? && !e.value.resolved && |e.value.bufs| == 51)
            && outcome != NoEntry
  {
    hide Conserved, Distinct, IndexOf;
    FoundInv(c, ip);
    var i := IndexOf(c.list, ip);
    if i < |c.list| {
      assert EntryOk(c.list[i]);
    }
  }

  /** Resolving frees packets in one case only: the address is unknown and no entry is free. */
  lemma {:induction false} ResolveDrops(c: Cache, ip: Ip, pkt: Pkt)
    requires CacheInv(c)
    ensures Resolve(c, ip, pkt).0.dropped ==
            if IndexOf(c.list, ip) == |c.list| && c.free == 0 then c.dropped + c.list[|c.list| - 1].bufs else c.dropped
  {
    hide Conserved, Distinct, IndexOf;
  }

  /** Which waiting entry loses its packets: the one at place `j` if and only if the address is
      unknown, no entry is free, and `j` is the last place. Otherwise it is in the cache with all
      its packets. */
  lemma {:induction false} EvictsIff(c: Cache, ip: Ip, pkt: Pkt, j: nat)
    requires CacheInv(c) && j < |c.list| && !c.list[j].resolved && c.list[j].ip != ip
    ensures c.list[j] !in Resolve(c, ip, pkt).0.list <==>
              IndexOf(c.list, ip) == |c.list| && c.free == 0 && j == |c.list| - 1
  {
    hide Conserved, EntryOk;
    FoundKeeps(c, ip, j);
    var f, r := Found(c, ip), Resolve(c, ip, pkt).0;
    if IndexOf(c.list, ip) < |c.list| {
      var i :| 0 <= i < |f.list| && f.list[i] == c.list[j];
      FoundFirst(c, ip);
      assert i > 0 && r.list[i] == f.list[i];
    } else {
      AllocatedInv(f, true);
      var a := Allocated(f, true).value;
      if c.free > 0 || j < |c.list| - 1 {
        assert a.list[j] == c.list[j] && r.list[j] == a.list[j];
      } else {
        forall i | 0 <= i < |r.list| ensures r.list[i] != c.list[j] {
        }
      }
    }
  }

  lemma {:induction false} FoundFirst(c: Cache, ip: Ip)
    requires IndexOf(c.list, ip) < |c.list|
    ensures Found(c, ip).list != [] && Found(c, ip).list[0].ip == ip
  {
    hide IndexOf;
  }

  lemma {:induction false} FoundKeeps(c: Cache, ip: Ip, j: nat)
    requires j < |c.list|
    ensures c.list[j] in Found(c, ip).list
  {
    hide IndexOf;
    var i, f := IndexOf(c.list, ip), Found(c, ip);
    if i < |c.list| {
      assert f.list[if j == i then 0 else if j < i then j + 1 else j] == c.list[j];
    }
  }

  /** An entry that waits for its address is put last, where the next eviction takes it: with a
      full cache, the packet of one new address is freed unsent as soon as another is resolved. */
  lemma {:induction false} NextOneEvicts(c: Cache, ip1: Ip, p1: Pkt, ip2: Ip, p2: Pkt)
    requires CacheInv(c) && c.free == 0 && ip1 != ip2
    requires IndexOf(c.list, ip1) == |c.list| && IndexOf(c.list, ip2) == |c.list|
    ensures var a := Resolve(c, ip1, p1).0; var r := Resolve(a, ip2, p2);
            && r.1 == Queued && r.0.sent == c.sent && r.0.dropped == a.dropped + [p1]
            && IndexOf(r.0.list, ip1) == |r.0.list|
  {
    hide Conserved;
    var last := |c.list| - 1;
    var a := Resolve(c, ip1, p1).0;
    assert a.list == c.list[..last] + [Entry(ip1, None, false, [p1])];
    Absent(c.list[..last], ip2, Entry(ip1, None, false, [p1]));
    ResolveInv(c, ip1, p1);
    ResolveDrops(a, ip2, p2);
    var r := Resolve(a, ip2, p2).0;
    assert r.list == c.list[..last] + [Entry(ip2, None, false, [p2])];
    Absent(c.list[..last], ip1, Entry(ip2, None, false, [p2]));
  }

  lemma {:induction false} Absent(list: seq<Entry>, ip: Ip, e: Entry)
    requires (forall i :: 0 <= i < |list| ==> list[i].ip != ip) && e.ip != ip
    ensures IndexOf(list + [e], ip) == |list| + 1
  {
    hide IndexOf;
    var l := list + [e];
    assert forall i :: 0 <= i < |l| ==> l[i].ip != ip;
  }

  // ------------------------------------------------------------------ the code

  class ArpCache {
    var list: seq<Entry>
    var free: nat
    ghost var queued: seq<Pkt>
    ghost var sent: seq<Frame>
    ghost var dropped: seq<Pkt>

    ghost function Value(): (r: Cache)
      reads this
    {
      Cache(list, free, queued, sent, dropped)
    }

    constructor ()
      ensures Value() == Init()
    {
      list, free := [], CACHE_SIZE;
      queued, sent, dropped := [], [], [];
    }

    /** cache_find; a hit stands first afterwards. */
    method CacheFind(ip: Ip) returns (hit: bool)
      modifies this`list
      ensures Value() == Found(old(Value()), ip) && hit == (IndexOf(old(list), ip) < old(|list|)) &&
              (hit ==> list != [])
    {
      var i := 0;
      assert list[0..] == list;
      while i < |list|
        modifies this`list
        invariant list == old(list) && i <= |list| && IndexOf(list, ip) == i + IndexOf(list[i..], ip)
      {
        if list[i].ip == ip {
          list := [list[i]] + Cut(list, i);
          return true;
        }
        assert list[i..][1..] == list[i + 1..];
        i := i + 1;
      }
      hit := false;
    }

    /** cache_clear_all on an entry taken out of the list. */
    method CacheClearAll(e: Entry)
      modifies this`dropped
      ensures dropped == old(dropped) + e.bufs
    {
      var bufs := e.bufs;
      assert old(dropped) + e.bufs == dropped + bufs;
      while bufs != []
        invariant dropped + bufs == old(dropped) + e.bufs
      {
        assert dropped + bufs == dropped + [bufs[0]] + bufs[1..];
        dropped := dropped + [bufs[0]];
        bufs := bufs[1..];
      }
    }

    /** cache_alloc. */
    method CacheAlloc(force: bool) returns (ok: bool)
      modifies this`list, this`free, this`dropped
      ensures ok == Allocated(old(Value()), force).Some?
      ensures Value() == if ok then Allocated(old(Value()), force).value else old(Value())
    {
      if free > 0 {
        free := free - 1;
        return true;
      }
      if !force || list == [] {
        return false;
      }
      var e := list[|list| - 1];
      list := list[..|list| - 1];
      CacheClearAll(e);
      ok := true;
    }

    /** cache_send_all on the first entry. */
    method CacheSendAll(good: nat)
      requires list != []
      modifies this`list, this`sent, this`dropped
      ensures Value() == Flushed(old(Value()), good)
    {
      var e := list[0];
      var n := 0;
      ghost var s0 := sent;
      ghost var l0 := list;
      assert sent == s0 + Frames(e.bufs[..0], e.hw);
      while n < |e.bufs|
        modifies this`list, this`sent, this`dropped
        invariant n <= |e.bufs| && n <= good && sent == s0 + Frames(e.bufs[..n], e.hw)
        invariant list == l0[0 := e.(bufs := e.bufs[n..])] && dropped == old(dropped)
      {
        var pkt := list[0].bufs[0];
        list := list[0 := list[0].(bufs := list[0].bufs[1..])];
        assert e.bufs[n..][1..] == e.bufs[n + 1..];
        if n == good {
          dropped := dropped + [pkt];
          return;
        }
        assert Frames(e.bufs[..n + 1], e.hw) == Frames(e.bufs[..n], e.hw) + [Frame(pkt, e.hw)];
        sent := sent + [Frame(pkt, e.hw)];
        n := n + 1;
      }
      assert e.bufs[..n] == e.bufs && e.bufs[n..] == [];
    }

    /** cache_insert. */
    method CacheInsert(ip: Ip, hw: Hw, force: bool, good: nat)
      modifies this`list, this`free, this`sent, this`dropped
      ensures Value() == Insert(old(Value()), ip, hw, force, good)
    {
      hide IndexOf, Flushed;
      var hit := CacheFind(ip);
      if hit {
        list := list[0 := list[0].(hw := Some(hw), resolved := true)];
        CacheSendAll(good);
        return;
      }
      var ok := CacheAlloc(force);
      if ok {
        list := [Entry(ip, Some(hw), true, [])] + list;
      }
    }

    /** arp_resolve, up to the sending of the request. */
    method ArpResolve(ip: Ip, pkt: Pkt) returns (outcome: Outcome)
      modifies this`list, this`free, this`queued, this`dropped
      ensures (Value(), outcome) == Resolve(old(Value()), ip, pkt)
    {
      hide IndexOf;
      var hit := CacheFind(ip);
      if hit {
        if list[0].resolved {
          return Direct(list[0].hw);
        }
        if |list[0].bufs| > PENDING_MAX {
          return Full;
        }
        list := list[0 := list[0].(bufs := [pkt] + list[0].bufs)];
        queued := queued + [pkt];
        return Queued;
      }
      var ok := CacheAlloc(true);
      if !ok {
        return NoEntry;
      }
      list := list + [Entry(ip, None, false, [pkt])];
      queued := queued + [pkt];
      outcome := Queued;
    }
  }
}
