/** ether_out of kernel/net/ether.c, the one caller of arp_resolve: what the address cache does in
    the program, as opposed to arp.c taken alone. */
module Ether {
  import opened Chunks
  import Lists
  import opened Arp

  /** The interface's own addresses. */
  datatype Netif = Netif(me: Ip, mac: Hw)

  /** ether_out: to itself; or to the address that arp_find returns, whatever the state of its
      entry; or to arp_resolve. */
  function Out(n: Netif, c: Cache, ip: Ip, pkt: Pkt): (r: (Cache, Outcome)) {
    if ip == n.me then (c, Direct(Some(n.mac)))
    else
      var e := Lookup(c.list, ip);
      if e.Some? then (Found(c, ip), Direct(e.value.hw)) else Resolve(Found(c, ip), ip, pkt)
  }

  datatype Event = OutCall(ip: Ip, pkt: Pkt) | Receive(ip: Ip, hw: Hw, force: bool, good: nat)

  function Step(n: Netif, c: Cache, e: Event): (r: Cache) {
    match e
    case OutCall(ip, pkt) => Out(n, c, ip, pkt).0
    case Receive(ip, hw, force, good) => Insert(c, ip, hw, force, good)
  }

  function Run(n: Netif, c: Cache, es: seq<Event>): (r: Cache)
    decreases |es|
  {
    if es == [] then c else Run(n, Step(n, c, es[0]), es[1..])
  }

  // ------------------------------------------------------------------ one packet waits

  /** An entry that waits holds one packet, and one that is resolved none. */
  ghost predicate Lean(c: Cache) {
    forall i :: 0 <= i < |c.list| ==> |c.list[i].bufs| == if c.list[i].resolved then 0 else 1
  }

  lemma {:induction false} FoundLean(c: Cache, ip: Ip)
    requires Lean(c)
    ensures Lean(Found(c, ip))
  {
    hide IndexOf;
  }

  lemma {:induction false} OutStep(n: Netif, c: Cache, ip: Ip, pkt: Pkt)
    requires CacheInv(c) && Lean(c)
    ensures CacheInv(Out(n, c, ip, pkt).0) && Lean(Out(n, c, ip, pkt).0)
  {
    hide Conserved, IndexOf, EntryOk;
    FoundInv(c, ip);
    FoundLean(c, ip);
    var f := Found(c, ip);
    ResolveInv(f, ip, pkt);
    if ip != n.me && Lookup(c.list, ip).None? {
      AllocatedInv(f, true);
    }
  }

  /** Whether or not the sends succeed. */
  lemma {:induction false} InsertLean(c: Cache, ip: Ip, hw: Hw, force: bool, good: nat)
    requires CacheInv(c) && Lean(c)
    ensures Lean(Insert(c, ip, hw, force, good))
  {
    hide Conserved, IndexOf, EntryOk, Frames;
    FoundInv(c, ip);
    FoundLean(c, ip);
    var f := Found(c, ip);
    if IndexOf(c.list, ip) < |c.list| {
      var r := Insert(c, ip, hw, force, good);
      assert forall i :: 0 < i < |f.list| ==> r.list[i] == f.list[i];
      assert r.list[0].resolved && r.list[0].bufs == [];
    } else if Allocated(f, force).Some? {
      AllocatedInv(f, force);
    }
  }

  lemma {:induction false} RunLean(n: Netif, c: Cache, es: seq<Event>)
    requires CacheInv(c) && Lean(c)
    ensures CacheInv(Run(n, c, es)) && Lean(Run(n, c, es))
    decreases |es|
  {
    hide CacheInv, Lean, Out, Insert;
    if es != [] {
      match es[0] {
        case OutCall(ip, pkt) =>
          OutStep(n, c, ip, pkt);
        case Receive(ip, hw, force, good) =>
          InsertInv(c, ip, hw, force, good);
          InsertLean(c, ip, hw, force, good);
      }
      RunLean(n, Step(n, c, es[0]), es[1..]);
    }
  }

  /** Over every run of ether_out and receptions, failing sends included: an entry that waits holds
      exactly one packet and a resolved one none, so no queue ever has an order. */
  lemma {:induction false} OneWaits(n: Netif, es: seq<Event>, ip: Ip)
    ensures var c := Run(n, Init(), es); var e := Lookup(c.list, ip);
            CacheInv(c) && (e.Some? ==> |e.value.bufs| == if e.value.resolved then 0 else 1)
  {
    hide CacheInv, Run, IndexOf;
    InitInv();
    RunLean(n, Init(), es);
  }

  // ------------------------------------------------------------------ where packets go

  /** Over every run: a packet goes out with an unset hardware address if and only if its address
      has an entry that waits at the call; it goes out with the known one if and only if the address
      is known; and it waits if and only if the address has no entry. */
  lemma {:induction false} OutcomeIff(n: Netif, es: seq<Event>, ip: Ip, pkt: Pkt)
    requires ip != n.me
    ensures var c := Run(n, Init(), es); var e := Lookup(c.list, ip); var outcome := Out(n, c, ip, pkt).1;
            && (outcome == Direct(None) <==> Awaited(c, ip))
            && (outcome.Direct? && outcome.hw.Some? <==> e.Some? && e.value.resolved)
            && (outcome == Queued <==> e.None?)
  {
    hide Run, IndexOf, Conserved, Distinct;
    InitInv();
    RunLean(n, Init(), es);
    var c := Run(n, Init(), es);
    FoundInv(c, ip);
    var i := IndexOf(c.list, ip);
    if i < |c.list| {
      assert EntryOk(c.list[i]);
    }
  }

  /** A packet for the host itself goes to its own hardware address and leaves the cache alone; any
      other one makes its address the last used or, if it is new, puts it last. */
  lemma {:induction false} OutOrder(n: Netif, c: Cache, ip: Ip, pkt: Pkt)
    requires CacheInv(c)
    ensures var o, r := Order(c.list), Out(n, c, ip, pkt);
            && (ip == n.me ==> r == (c, Direct(Some(n.mac))))
            && (ip != n.me ==>
                  Order(r.0.list) == if ip in o then [ip] + Lists.Remove(o, ip)
                                     else (if c.free > 0 then o else o[..|o| - 1]) + [ip])
  {
    hide CacheInv, Resolve;
    FoundOrder(c, ip);
    FoundInv(c, ip);
    var i := IndexOf(c.list, ip);
    assert i < |c.list| ==> Order(c.list)[i] == ip;
    if i == |c.list| {
      ResolveOrder(c, ip, pkt);
    }
  }

  /** It happens with the second packet for a new address. */
  lemma {:induction false} SecondPacketLost(n: Netif, ip: Ip, p: Pkt, q: Pkt)
    requires ip != n.me
    ensures Out(n, Run(n, Init(), [OutCall(ip, p)]), ip, q).1 == Direct(None)
  {
    var c := Cache([Entry(ip, None, false, [p])], CACHE_SIZE - 1, [p], [], []);
    assert Out(n, Init(), ip, p).0 == c;
    assert [OutCall(ip, p)][1..] == [];
    assert Run(n, Init(), [OutCall(ip, p)]) == Run(n, c, []) == c;
  }

  /** After an answer exactly the packet that waited is sent, to the address in the answer. */
  lemma {:induction false} AnswerSends(n: Netif, es: seq<Event>, ip: Ip, hw: Hw, force: bool, good: nat)
    requires Awaited(Run(n, Init(), es), ip)
    ensures var c := Run(n, Init(), es); var bufs := Lookup(c.list, ip).value.bufs;
            && |bufs| == 1
            && (good > 0 ==> Insert(c, ip, hw, force, good).sent == c.sent + [Frame(bufs[0], Some(hw))])
            && (good == 0 ==> Insert(c, ip, hw, force, good).dropped == c.dropped + bufs)
  {
    hide Run, IndexOf, Conserved, Distinct, EntryOk;
    OneWaits(n, es, ip);
    var c := Run(n, Init(), es);
    FoundInv(c, ip);
    var bufs := c.list[IndexOf(c.list, ip)].bufs;
    assert bufs == [bufs[0]] && Frames(bufs, Some(hw)) == [Frame(bufs[0], Some(hw))];
    assert good == 0 ==> Frames(bufs[..0], Some(hw)) == [];
  }

  // ------------------------------------------------------------------ which address

  /** A reception is accepted unless it would need a free entry, there is none, and it may not take
      one. */
  predicate Accepted(c: Cache, e: Event) {
    e.Receive? && (Lookup(c.list, e.ip).Some? || c.free > 0 || e.force)
  }

  /** The hardware address in the last reception for `ip` that was accepted. */
  function LastHeard(n: Netif, c: Cache, es: seq<Event>, ip: Ip, heard: Option<Hw>): (r: Option<Hw>)
    decreases |es|
  {
    if es == [] then heard
    else LastHeard(n, Step(n, c, es[0]), es[1..], ip,
                   if Accepted(c, es[0]) && es[0].ip == ip then Some(es[0].hw) else heard)
  }

  /** A resolved entry holds what was heard last. */
  predicate Heard(c: Cache, ip: Ip, heard: Option<Hw>) {
    var e := Lookup(c.list, ip);
    e.Some? && e.value.resolved ==> e.value.hw == heard
  }

  lemma {:induction false} OutHeard(n: Netif, c: Cache, to: Ip, pkt: Pkt, ip: Ip, heard: Option<Hw>)
    requires CacheInv(c) && Heard(c, ip, heard)
    ensures Heard(Out(n, c, to, pkt).0, ip, heard)
  {
    hide CacheInv, Resolve, Found;
    FoundInv(c, to);
    FoundLookup(c, to, ip);
    if to != n.me && Lookup(c.list, to).None? {
      if to == ip {
        OwnResolve(Found(c, to), ip, pkt);
      } else {
        OtherResolve(Found(c, to), to, pkt, ip);
      }
    }
  }

  lemma {:induction false} FoundLookup(c: Cache, to: Ip, ip: Ip)
    requires CacheInv(c)
    ensures Lookup(Found(c, to).list, ip) == Lookup(c.list, ip)
  {
    hide Conserved, EntryOk, IndexOf, Lookup;
    FoundInv(c, to);
    FoundSub(c, to);
    LookupSub(c.list, Found(c, to).list, ip);
    if j :| 0 <= j < |c.list| && c.list[j].ip == ip {
      LookupAt(c.list, j);
      FoundKeeps(c, to, j);
      var i :| 0 <= i < |Found(c, to).list| && Found(c, to).list[i] == c.list[j];
      LookupAt(Found(c, to).list, i);
    } else {
      LookupNone(c.list, ip);
    }
  }

  lemma {:induction false} InsertHeard(n: Netif, c: Cache, e: Event, ip: Ip, heard: Option<Hw>)
    requires CacheInv(c) && Heard(c, ip, heard) && e.Receive?
    ensures Heard(Step(n, c, e), ip, if Accepted(c, e) && e.ip == ip then Some(e.hw) else heard)
  {
    if e.ip == ip {
      OwnHeard(c, ip, e.hw, e.force, e.good);
    } else {
      hide CacheInv, Insert, Lookup;
      OtherInsert(c, e.ip, e.hw, e.force, e.good, ip);
    }
  }

  /** What a reception leaves of the entry of its own address. */
  lemma {:induction false} OwnHeard(c: Cache, ip: Ip, hw: Hw, force: bool, good: nat)
    requires CacheInv(c)
    ensures var e := Lookup(Insert(c, ip, hw, force, good).list, ip);
            if Lookup(c.list, ip).Some? || c.free > 0 || force then
              e.Some? && e.value.resolved && e.value.hw == Some(hw)
            else e == Lookup(c.list, ip)
  {
    hide Conserved, EntryOk, IndexOf, Frames;
    FoundInv(c, ip);
    InsertInv(c, ip, hw, force, good);
    var r := Insert(c, ip, hw, force, good);
    if IndexOf(c.list, ip) < |c.list| || Allocated(Found(c, ip), force).Some? {
      LookupAt(r.list, 0);
    }
  }

  lemma {:induction false} RunHeard(n: Netif, c: Cache, es: seq<Event>, ip: Ip, heard: Option<Hw>)
    requires CacheInv(c) && Lean(c) && Heard(c, ip, heard)
    ensures Heard(Run(n, c, es), ip, LastHeard(n, c, es, ip, heard))
    decreases |es|
  {
    hide CacheInv, Lean, Out, Insert, Heard, Accepted;
    if es != [] {
      match es[0] {
        case OutCall(to, pkt) =>
          OutStep(n, c, to, pkt);
          OutHeard(n, c, to, pkt, ip, heard);
          NotAccepted(c, es[0]);
        case Receive(from, hw, force, good) =>
          InsertInv(c, from, hw, force, good);
          InsertLean(c, from, hw, force, good);
          InsertHeard(n, c, es[0], ip, heard);
      }
      RunHeard(n, Step(n, c, es[0]), es[1..], ip,
               if Accepted(c, es[0]) && es[0].ip == ip then Some(es[0].hw) else heard);
    }
  }

  lemma {:induction false} NotAccepted(c: Cache, e: Event)
    requires e.OutCall?
    ensures !Accepted(c, e)
  {
  }

  /** Over every run: a packet goes out to hardware address `h` if and only if its address is
      resolved and `h` is the one in the last reception for it that was accepted. */
  lemma {:induction false} SentToIff(n: Netif, es: seq<Event>, ip: Ip, pkt: Pkt, h: Hw)
    requires ip != n.me
    ensures var c := Run(n, Init(), es); var e := Lookup(c.list, ip);
            Out(n, c, ip, pkt).1 == Direct(Some(h)) <==>
              e.Some? && e.value.resolved && LastHeard(n, Init(), es, ip, None) == Some(h)
  {
    hide Run, IndexOf, Conserved, Distinct, LastHeard;
    InitInv();
    RunLean(n, Init(), es);
    RunHeard(n, Init(), es, ip, None);
    OutcomeIff(n, es, ip, pkt);
  }

  // ------------------------------------------------------------------ the code

  /** arp_find: the address of the entry, which moves to the front. */
  method ArpFind(cache: ArpCache, ip: Ip) returns (found: bool, hw: Option<Hw>)
    modifies cache`list
    ensures cache.Value() == Found(old(cache.Value()), ip)
    ensures found == Lookup(old(cache.list), ip).Some? && (found ==> hw == Lookup(old(cache.list), ip).value.hw)
  {
    hide IndexOf;
    found := cache.CacheFind(ip);
    hw := if found then cache.list[0].hw else None;
  }

  /** ether_out. */
  method EtherOut(n: Netif, cache: ArpCache, ip: Ip, pkt: Pkt) returns (outcome: Outcome)
    modifies cache`list, cache`free, cache`queued, cache`dropped
    ensures (cache.Value(), outcome) == Out(n, old(cache.Value()), ip, pkt)
  {
    hide IndexOf, Resolve;
    if ip == n.me {
      return Direct(Some(n.mac));
    }
    var found, hw := ArpFind(cache, ip);
    if found {
      return Direct(hw);
    }
    outcome := cache.ArpResolve(ip, pkt);
  }
}
