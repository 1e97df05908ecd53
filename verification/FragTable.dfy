/** The table of kernel/net/ip.c that keeps one fragment list per source, ten at most. */
module FragTable {
  import opened Chunks
  import opened Ipv4
  import opened Reassembly

  datatype Entry = Entry(ip: Addr, id: Word16, list: seq<Packet>)

  /** frag_list, most recently used first, and the number of free entries in frag_mblock. */
  datatype Table = Table(entries: seq<Entry>, free: nat)

  /** The fragments kept for a source. */
  function ListOf(es: seq<Entry>, ip: Addr): (r: seq<Packet>) {
    if es == [] then [] else if es[0].ip == ip then es[0].list else ListOf(es[1..], ip)
  }

  predicate Has(es: seq<Entry>, ip: Addr) {
    exists i :: 0 <= i < |es| && es[i].ip == ip
  }

  /** The position of the entry of a source, or the length of the list. */
  function Find(es: seq<Entry>, ip: Addr): (r: nat)
    ensures r <= |es|
    ensures r < |es| ==> es[r].ip == ip
    ensures r == |es| ==> !Has(es, ip)
  {
    if es == [] then 0 else if es[0].ip == ip then 0 else 1 + Find(es[1..], ip)
  }

  predicate OnePerSource(es: seq<Entry>) {
    forall i, j :: 0 <= i < j < |es| ==> es[i].ip != es[j].ip
  }

  predicate TableOk(t: Table) {
    && OnePerSource(t.entries) && |t.entries| + t.free == FRAGS_MAX
    && forall i :: 0 <= i < |t.entries| ==> t.entries[i].list != []
  }

  /** frag_find, or frag_alloc and frag_add: the entry of the source comes first. A full table
      gives up its least recently used entry. */
  function Opened(t: Table, ip: Addr, id: Word16): (r: Table)
    requires |t.entries| + t.free == FRAGS_MAX
    ensures r.entries != [] && r.entries[0].ip == ip && |r.entries| + r.free == FRAGS_MAX
    ensures !Has(t.entries, ip) ==> r.entries[0].id == id && r.entries[0].list == []
  {
    var i := Find(t.entries, ip);
    if i < |t.entries| then Table([t.entries[i]] + (t.entries[..i] + t.entries[i + 1..]), t.free)
    else if t.free > 0 then Table([Entry(ip, id, [])] + t.entries, t.free - 1)
    else Table([Entry(ip, id, [])] + t.entries[..|t.entries| - 1], t.free)
  }

  datatype Result = Result(table: Table, err: NetErr, out: Option<seq<Byte>>)

  /** ipv4_frag_in up to the hand-over to the upper layer. */
  function FragIn(t: Table, ip: Addr, p: Packet): (r: Result)
    requires |t.entries| + t.free == FRAGS_MAX
  {
    var u := Opened(t, ip, p.hdr.id);
    var e, rest := u.entries[0], u.entries[1..];
    var o := Accept(e.list, p);
    if o.list == [] then Result(Table(rest, u.free + 1), o.err, o.out)
    else Result(Table([e.(list := o.list)] + rest, u.free), o.err, o.out)
  }

  /** The entries other than the one of `ip`. */
  lemma {:induction false} OpenedRest(t: Table, ip: Addr, id: Word16)
    requires TableOk(t)
    ensures var u := Opened(t, ip, id);
            && OnePerSource(u.entries) && !Has(u.entries[1..], ip)
            && forall i :: 0 < i < |u.entries| ==> u.entries[i].list != []
  {
    hide Find, Has;
    var u, es, k := Opened(t, ip, id).entries, t.entries, Find(t.entries, ip);
    assert forall i :: 0 < i < |u| ==> u[i] == es[if k < |es| && i > k then i else i - 1];
    if k == |es| {
      NotThere(es, ip);
    }
    forall i | 0 < i < |u| ensures u[i].ip != ip {
    }
    assert !Has(u[1..], ip) by { NotHas(u[1..], ip); }
  }

  lemma {:induction false} NotThere(es: seq<Entry>, ip: Addr)
    requires !Has(es, ip)
    ensures forall i :: 0 <= i < |es| ==> es[i].ip != ip
  {
  }

  lemma {:induction false} NotHas(es: seq<Entry>, ip: Addr)
    requires forall i :: 0 <= i < |es| ==> es[i].ip != ip
    ensures !Has(es, ip)
  {
  }

  /** The table stays well formed, whatever arrives: one non-empty list per source, and kept
      plus free entries make ten. */
  lemma {:induction false} FragInOk(t: Table, ip: Addr, p: Packet)
    requires TableOk(t)
    ensures TableOk(FragIn(t, ip, p).table)
  {
    hide Accept, Opened;
    OpenedRest(t, ip, p.hdr.id);
  }

  lemma {:induction false} ListOfAbsent(es: seq<Entry>, ip: Addr)
    requires !Has(es, ip)
    ensures ListOf(es, ip) == []
  {
    if es != [] {
      assert es[0].ip != ip;
      assert !Has(es[1..], ip) by {
        forall i | 0 <= i < |es[1..]| ensures es[1..][i].ip != ip {
          assert es[1..][i] == es[i + 1];
        }
      }
      ListOfAbsent(es[1..], ip);
    }
  }

  lemma {:induction false} ListOfAppend(a: seq<Entry>, b: seq<Entry>, ip: Addr)
    ensures ListOf(a + b, ip) == if Has(a, ip) then ListOf(a, ip) else ListOf(b, ip)
  {
    if a == [] {
      assert a + b == b;
    } else {
      ListOfAppend(a[1..], b, ip);
      assert (a + b)[1..] == a[1..] + b;
      assert Has(a, ip) <==> a[0].ip == ip || Has(a[1..], ip) by {
        if Has(a[1..], ip) {
          var i :| 0 <= i < |a[1..]| && a[1..][i].ip == ip;
          assert a[i + 1].ip == ip;
        }
        if Has(a, ip) && a[0].ip != ip {
          var i :| 0 <= i < |a| && a[i].ip == ip;
          assert a[1..][i - 1].ip == ip;
        }
      }
    }
  }

  /** Bringing an entry to the front, or opening a new one in a free slot, changes no list. */
  lemma {:induction false} OpenedLists(t: Table, ip: Addr, id: Word16, x: Addr)
    requires TableOk(t) && (Has(t.entries, ip) || t.free > 0)
    ensures ListOf(Opened(t, ip, id).entries, x) == ListOf(t.entries, x)
  {
    hide ListOf, Find;
    var es, i := t.entries, Find(t.entries, ip);
    if i < |es| {
      var a, e, b := es[..i], [es[i]], es[i + 1..];
      assert es == a + (e + b);
      ListOfAppend(a, e + b, x);
      ListOfAppend(e, b, x);
      ListOfAppend(e, a + b, x);
      ListOfAppend(a, b, x);
      HasOne(es[i], x);
      if x == ip {
        assert !Has(a, x);
      }
    } else {
      var e := Entry(ip, id, []);
      ListOfAppend([e], es, x);
      HasOne(e, x);
      if x == ip {
        ListOfAbsent(es, x);
      }
    }
  }

  lemma {:induction false} HasOne(e: Entry, x: Addr)
    ensures Has([e], x) <==> e.ip == x
    ensures e.ip == x ==> ListOf([e], x) == e.list
  {
    assert [e][0] == e;
  }

  /** While there is room for every source, a fragment does to its own source's list what
      Accept says and nothing to any other list. */
  lemma {:induction false} FragInLists(t: Table, ip: Addr, p: Packet, x: Addr)
    requires TableOk(t) && (Has(t.entries, ip) || t.free > 0)
    ensures var r, o := FragIn(t, ip, p), Accept(ListOf(t.entries, ip), p);
            && r.err == o.err && r.out == o.out
            && ListOf(r.table.entries, x) == if x == ip then o.list else ListOf(t.entries, x)
  {
    hide Accept, Opened;
    var u := Opened(t, ip, p.hdr.id);
    var e, rest := u.entries[0], u.entries[1..];
    OpenedRest(t, ip, p.hdr.id);
    OpenedLists(t, ip, p.hdr.id, x);
    OpenedLists(t, ip, p.hdr.id, ip);
    assert u.entries == [e] + rest;
    var e' := e.(list := Accept(e.list, p).list);
    HasOne(e, x);
    HasOne(e', x);
    HasOne(e, ip);
    ListOfAppend([e], rest, x);
    ListOfAppend([e], rest, ip);
    ListOfAppend([e'], rest, x);
    ListOfAbsent(rest, ip);
  }

  // ------------------------------------------------------------------ which source is given up

  /** A full table gives up one source for a new one: exactly that of its last entry. */
  lemma {:induction false} LostIff(t: Table, ip: Addr, p: Packet, x: Addr)
    requires TableOk(t) && x != ip && Has(t.entries, x)
    ensures var r := ListOf(FragIn(t, ip, p).table.entries, x);
            var full := !Has(t.entries, ip) && t.free == 0;
            && (r == [] <==> full && t.entries[|t.entries| - 1].ip == x)
            && (r != [] ==> r == ListOf(t.entries, x))
  {
    hide Accept;
    var es := t.entries;
    ListThere(es, x);
    if Has(es, ip) || t.free > 0 {
      FragInLists(t, ip, p, x);
    } else {
      var last := |es| - 1;
      var a, e := es[..last], es[last];
      assert es == a + [e];
      ListOfAppend(a, [e], x);
      HasOne(e, x);
      var u := Opened(t, ip, p.hdr.id);
      assert u.entries[1..] == a;
      var o := Accept([], p);
      var n := Entry(ip, p.hdr.id, o.list);
      ListOfAppend([n], a, x);
      HasOne(n, x);
      assert FragIn(t, ip, p).table.entries == if o.list == [] then a else [n] + a;
      if e.ip == x {
        ListOfAbsent(a, x);
      }
    }
  }

  lemma {:induction false} ListThere(es: seq<Entry>, x: Addr)
    requires Has(es, x) && forall i :: 0 <= i < |es| ==> es[i].list != []
    ensures ListOf(es, x) != []
  {
    if es[0].ip != x {
      var i :| 0 <= i < |es| && es[i].ip == x;
      assert es[1..][i - 1].ip == x;
      ListThere(es[1..], x);
    }
  }

  /** When a source was last heard of, counting arrivals from 1; 0 for never. */
  function LastUse(arrivals: seq<Addr>, x: Addr): (r: nat)
    ensures r <= |arrivals|
  {
    if arrivals == [] then 0
    else if arrivals[|arrivals| - 1] == x then |arrivals|
    else LastUse(arrivals[..|arrivals| - 1], x)
  }

  /** Entries stand in the order of their last use, latest first. */
  ghost predicate ByUse(es: seq<Entry>, arrivals: seq<Addr>) {
    forall i, j :: 0 <= i < j < |es| ==> LastUse(arrivals, es[i].ip) > LastUse(arrivals, es[j].ip)
  }

  function TableAfter(t: Table, arrivals: seq<Arrival>): (r: Table)
    requires |t.entries| + t.free == FRAGS_MAX
    ensures |r.entries| + r.free == FRAGS_MAX
    decreases |arrivals|
  {
    if arrivals == [] then t
    else
      var r := FragIn(t, arrivals[0].ip, arrivals[0].packet);
      assert |r.table.entries| + r.table.free == FRAGS_MAX;
      TableAfter(r.table, arrivals[1..])
  }

  lemma {:induction false} UseNew(past: seq<Addr>, ip: Addr)
    ensures LastUse(past + [ip], ip) == |past| + 1
    ensures forall x :: x != ip ==> LastUse(past + [ip], x) == LastUse(past, x)
  {
    assert (past + [ip])[..|past|] == past;
  }

  /** The other entries keep their order. */
  lemma {:induction false} OpenedIndex(t: Table, ip: Addr, id: Word16, i: nat)
    requires |t.entries| + t.free == FRAGS_MAX && 0 < i < |Opened(t, ip, id).entries|
    ensures var k := Find(t.entries, ip); var j := if k < |t.entries| && i > k then i else i - 1;
            j < |t.entries| && Opened(t, ip, id).entries[i] == t.entries[j]
  {
    hide Find;
  }

  lemma {:induction false} OpenedByUse(t: Table, ip: Addr, id: Word16, past: seq<Addr>)
    requires TableOk(t) && ByUse(t.entries, past)
    ensures ByUse(Opened(t, ip, id).entries, past + [ip])
  {
    hide Opened, LastUse, TableOk, Find;
    SizeOk(t);
    var u := Opened(t, ip, id).entries;
    UseNew(past, ip);
    OpenedOther(t, ip, id);
    forall i, j | 0 <= i < j < |u| ensures LastUse(past + [ip], u[i].ip) > LastUse(past + [ip], u[j].ip) {
      OpenedIndex(t, ip, id, j);
      if i > 0 {
        OpenedIndex(t, ip, id, i);
      }
    }
  }

  lemma {:induction false} UseStep(t: Table, ip: Addr, p: Packet, past: seq<Addr>)
    requires TableOk(t) && ByUse(t.entries, past)
    ensures ByUse(FragIn(t, ip, p).table.entries, past + [ip])
  {
    hide Accept, Opened, LastUse;
    OpenedByUse(t, ip, p.hdr.id, past);
  }

  lemma {:induction false} OpenedOther(t: Table, ip: Addr, id: Word16)
    requires TableOk(t)
    ensures forall i :: 0 < i < |Opened(t, ip, id).entries| ==> Opened(t, ip, id).entries[i].ip != ip
  {
    hide Opened;
    OpenedRest(t, ip, id);
    var u := Opened(t, ip, id).entries;
    forall i | 0 < i < |u| ensures u[i].ip != ip {
      assert u[1..][i - 1] == u[i];
    }
  }

  /** Over every sequence of arrivals the table is in the order of last use; so the source that
      LostIff names is the one not heard of for longest. */
  lemma {:induction false} LeastRecentlyUsed(t: Table, arrivals: seq<Arrival>, past: seq<Addr>)
    requires TableOk(t) && ByUse(t.entries, past)
    ensures ByUse(TableAfter(t, arrivals).entries, past + SourcesIn(arrivals))
    decreases |arrivals|
  {
    hide FragIn, TableOk, ByUse;
    if arrivals == [] {
      assert past + SourcesIn(arrivals) == past;
    } else {
      var a := arrivals[0];
      SizeOk(t);
      UseStep(t, a.ip, a.packet, past);
      FragInOk(t, a.ip, a.packet);
      LeastRecentlyUsed(FragIn(t, a.ip, a.packet).table, arrivals[1..], past + [a.ip]);
      assert past + SourcesIn(arrivals) == past + [a.ip] + SourcesIn(arrivals[1..]);
    }
  }

  lemma {:induction false} SizeOk(t: Table)
    requires TableOk(t)
    ensures |t.entries| + t.free == FRAGS_MAX
  {
  }

  function SourcesIn(arrivals: seq<Arrival>): (r: seq<Addr>)
    ensures |r| == |arrivals|
  {
    if arrivals == [] then [] else [arrivals[0].ip] + SourcesIn(arrivals[1..])
  }

  // ------------------------------------------------------------------ runs with several sources

  datatype Arrival = Arrival(ip: Addr, packet: Packet)

  /** What is handed up, arrival by arrival. */
  function TableOutputs(t: Table, arrivals: seq<Arrival>): (r: seq<Option<seq<Byte>>>)
    requires |t.entries| + t.free == FRAGS_MAX
    ensures |r| == |arrivals|
    decreases |arrivals|
  {
    if arrivals == [] then []
    else var r := FragIn(t, arrivals[0].ip, arrivals[0].packet);
         assert |r.table.entries| + r.table.free == FRAGS_MAX;
         [r.out] + TableOutputs(r.table, arrivals[1..])
  }

  /** The packets of one source, and what was handed up for them. */
  function PacketsOf(arrivals: seq<Arrival>, ip: Addr): (r: seq<Packet>) {
    if arrivals == [] then []
    else (if arrivals[0].ip == ip then [arrivals[0].packet] else []) + PacketsOf(arrivals[1..], ip)
  }

  function OutputsOf(arrivals: seq<Arrival>, outs: seq<Option<seq<Byte>>>, ip: Addr): (r: seq<Option<seq<Byte>>>)
    requires |outs| == |arrivals|
  {
    if arrivals == [] then []
    else (if arrivals[0].ip == ip then [outs[0]] else []) + OutputsOf(arrivals[1..], outs[1..], ip)
  }

  ghost function Ips(es: seq<Entry>): (r: set<Addr>)
    ensures forall x :: x in r <==> Has(es, x)
  {
    set i | 0 <= i < |es| :: es[i].ip
  }

  lemma {:induction false} HasLast(es: seq<Entry>, x: Addr)
    requires es != []
    ensures Has(es, x) <==> Has(es[..|es| - 1], x) || es[|es| - 1].ip == x
  {
    var k := |es| - 1;
    if Has(es, x) && x != es[k].ip {
      var i :| 0 <= i < |es| && es[i].ip == x;
      assert es[..k][i].ip == x;
    }
    if Has(es[..k], x) {
      var i :| 0 <= i < k && es[..k][i].ip == x;
      assert es[i].ip == x;
    }
  }

  lemma {:induction false} IpsCount(es: seq<Entry>)
    requires OnePerSource(es)
    ensures |Ips(es)| == |es|
  {
    if es != [] {
      hide Has;
      var k := |es| - 1;
      IpsCount(es[..k]);
      forall x: Addr {
        HasLast(es, x);
      }
      LastIsNew(es);
      assert Ips(es) == Ips(es[..k]) + {es[k].ip};
    }
  }

  lemma {:induction false} LastIsNew(es: seq<Entry>)
    requires OnePerSource(es) && es != []
    ensures !Has(es[..|es| - 1], es[|es| - 1].ip)
  {
  }

  /** The sources in the table and in the arrivals to come are among `sources`. */
  ghost predicate Among(t: Table, arrivals: seq<Arrival>, sources: set<Addr>) {
    Ips(t.entries) <= sources && forall i :: 0 <= i < |arrivals| ==> arrivals[i].ip in sources
  }

  lemma {:induction false} Room(t: Table, ip: Addr, sources: set<Addr>)
    requires TableOk(t) && Ips(t.entries) <= sources && ip in sources && |sources| <= FRAGS_MAX
    ensures Has(t.entries, ip) || t.free > 0
  {
    if !Has(t.entries, ip) {
      IpsCount(t.entries);
      assert ip !in Ips(t.entries);
      SmallerSet(Ips(t.entries) + {ip}, sources);
    }
  }

  lemma {:induction false} SmallerSet(a: set<Addr>, b: set<Addr>)
    requires a <= b
    ensures |a| <= |b|
  {
    if a != {} {
      var x :| x in a;
      SmallerSet(a - {x}, b - {x});
    }
  }

  lemma {:induction false} FragInIps(t: Table, ip: Addr, p: Packet)
    requires TableOk(t)
    ensures Ips(FragIn(t, ip, p).table.entries) <= Ips(t.entries) + {ip}
  {
    hide Accept;
    var r := FragIn(t, ip, p).table.entries;
    forall x | Has(r, x) ensures Has(t.entries, x) || x == ip {
      var i :| 0 <= i < |r| && r[i].ip == x;
      OpenedMember(t, ip, p.hdr.id);
    }
  }

  lemma {:induction false} OpenedMember(t: Table, ip: Addr, id: Word16)
    requires TableOk(t)
    ensures var u := Opened(t, ip, id).entries;
            forall i :: 0 < i < |u| ==> Has(t.entries, u[i].ip)
  {
    var u, es, k := Opened(t, ip, id).entries, t.entries, Find(t.entries, ip);
    forall i | 0 < i < |u| ensures Has(es, u[i].ip) {
      var j := if k < |es| && i > k then i else i - 1;
      assert u[i] == es[j];
    }
  }

  /** No interference between sources: as long as at most ten sources send fragments, every
      source gets handed up exactly what it would get if it were the only one. */
  lemma {:induction false} SourcesIndependent(t: Table, arrivals: seq<Arrival>, sources: set<Addr>, x: Addr)
    requires TableOk(t) && Among(t, arrivals, sources) && |sources| <= FRAGS_MAX
    ensures OutputsOf(arrivals, TableOutputs(t, arrivals), x) == Outputs(ListOf(t.entries, x), PacketsOf(arrivals, x))
    decreases |arrivals|
  {
    if arrivals != [] {
      var ip, p, rest := arrivals[0].ip, arrivals[0].packet, arrivals[1..];
      Room(t, ip, sources);
      FragInOk(t, ip, p);
      FragInLists(t, ip, p, x);
      FragInIps(t, ip, p);
      var t' := FragIn(t, ip, p).table;
      SourcesIndependent(t', rest, sources, x);
      IndependentStep(t, arrivals, x);
    }
  }

  lemma {:induction false} IndependentStep(t: Table, arrivals: seq<Arrival>, x: Addr)
    requires TableOk(t) && arrivals != []
    requires var ip, p := arrivals[0].ip, arrivals[0].packet;
             var t' := FragIn(t, ip, p).table;
             && TableOk(t') && (Has(t.entries, ip) || t.free > 0)
             && OutputsOf(arrivals[1..], TableOutputs(t', arrivals[1..]), x)
                == Outputs(ListOf(t'.entries, x), PacketsOf(arrivals[1..], x))
    ensures OutputsOf(arrivals, TableOutputs(t, arrivals), x) == Outputs(ListOf(t.entries, x), PacketsOf(arrivals, x))
  {
    hide FragIn, Accept, ListOf;
    var ip, p, rest := arrivals[0].ip, arrivals[0].packet, arrivals[1..];
    FragInLists(t, ip, p, x);
    var outs := TableOutputs(t, arrivals);
    assert outs[1..] == TableOutputs(FragIn(t, ip, p).table, rest);
    if ip == x {
      assert PacketsOf(arrivals, x)[1..] == PacketsOf(rest, x);
    } else {
      assert PacketsOf(arrivals, x) == PacketsOf(rest, x);
    }
  }

  // ------------------------------------------------------------------ the loops of ip.c

  lemma {:induction false} FindNext(es: seq<Entry>, ip: Addr, i: nat)
    requires i < |es| && es[i].ip != ip
    ensures Find(es[i..], ip) == 1 + Find(es[i + 1..], ip)
  {
    assert es[i..][1..] == es[i + 1..];
  }

  lemma {:induction false} JoinNext(list: seq<Packet>, i: nat)
    requires i < |list|
    ensures DataOf(list[i..]) == list[i].data + DataOf(list[i + 1..])
  {
    assert list[i..][1..] == list[i + 1..];
  }
}
