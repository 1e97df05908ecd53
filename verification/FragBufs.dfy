/** ipv4_frag_in of kernel/net/ip.c on packet buffers: the table holds the buffers themselves, and
    each buffer received waits in it, or goes up, or is given back once. */
module FragBufs {
  import opened Chunks
  import opened Pktbuf
  import opened PktCursor
  import opened Ipv4
  import opened Reassembly
  import opened FragTable
  import opened Fragmentation
  import opened FragSend
  import opened FragRecv

  /** ipv4_frag_t. */
  datatype BufEntry = BufEntry(ip: Addr, id: Word16, bufs: seq<PktBuf>)

  /** A referenced buffer that holds this packet as ipv4_in leaves it, its header in one block. */
  ghost predicate Kept(buf: PktBuf, p: Packet)
    reads buf
  {
    && Carries(buf, p) && HeaderWhole(buf) && buf.ref >= 1
    && |buf.Bytes()| >= HDR_SIZE && Fields(buf.Bytes()) == p.hdr
  }

  ghost predicate AllKept(bufs: seq<PktBuf>, list: seq<Packet>)
    reads bufs
  {
    |bufs| == |list| && forall i :: 0 <= i < |bufs| ==> Kept(bufs[i], list[i])
  }

  ghost predicate Separate(bufs: seq<PktBuf>) {
    forall i, j :: 0 <= i < j < |bufs| ==> bufs[i] != bufs[j]
  }

  // ------------------------------------------------------------------ the loops over one list

  lemma {:induction false} FirstBlock(bs: seq<Block>)
    requires bs != [] && bs[0].size >= HDR_SIZE
    ensures |Flat(bs)| >= HDR_SIZE && Fields(bs[0].View()) == Fields(Flat(bs))
  {
    hide Flat;
    FlatFirst(bs);
    var v, f := bs[0].View(), Flat(bs);
    assert f[12..16] == v[12..16] && f[16..20] == v[16..20];
  }

  /** The header through pktbuf_data. */
  method HeaderOf(buf: PktBuf, ghost p: Packet) returns (h: Header)
    requires Kept(buf, p)
    ensures h == p.hdr
  {
    hide Flat, Fields;
    FirstBlock(buf.blkList);
    h := Fields(buf.blkList[0].View());
  }

  /** get_frag_start and get_frag_end on a header. */
  function StartOf(h: Header): (r: nat) {
    8 * h.offset as int
  }

  function EndOf(h: Header): (r: nat) {
    (StartOf(h) + (h.totalLen - 4 * h.shdr)) % TWO16
  }

  /** frag_insert behind its test for a full list; `k` is where the buffer went. */
  method InsertBuf(bufs: seq<PktBuf>, buf: PktBuf, ghost list: seq<Packet>, ghost p: Packet)
    returns (err: NetErr, r: seq<PktBuf>, ghost k: nat)
    requires AllKept(bufs, list) && Kept(buf, p)
    ensures err == if Insert(list, p).Some? then OK else EXIST
    ensures err == OK ==>
              k <= |bufs| && r == bufs[..k] + [buf] + bufs[k..] &&
              Insert(list, p) == Some(list[..k] + [p] + list[k..])
    ensures err == EXIST ==> r == bufs
  {
    hide Insert, InsertFrom, Kept;
    var h := HeaderOf(buf, p);
    var i := 0;
    InsertFromStart(list, p);
    while i < |bufs|
      invariant 0 <= i <= |bufs| && InsertFrom(list, p, i)
    {
      InsertFromNext(list, p, i);
      var cur := HeaderOf(bufs[i], list[i]);
      if StartOf(h) == StartOf(cur) {
        return EXIST, bufs, 0;
      }
      if EndOf(h) <= StartOf(cur) {
        return OK, bufs[..i] + [buf] + bufs[i..], i;
      }
      i := i + 1;
    }
    InsertFromEnd(list, p);
    assert list[..i] + [p] + list[i..] == list + [p] && bufs[..i] + [buf] + bufs[i..] == bufs + [buf];
    return OK, bufs + [buf], i;
  }

  /** frag_all_arrived. */
  method ArrivedBufs(bufs: seq<PktBuf>, ghost list: seq<Packet>) returns (r: bool)
    requires AllKept(bufs, list)
    ensures r == AllArrived(list) && (r ==> bufs != [])
  {
    hide Kept;
    var off, more, i := 0, true, 0;
    assert list[0..] == list;
    while i < |bufs|
      invariant 0 <= i <= |bufs| && off >= 0
      invariant Arrived(list, 0, true) == Arrived(list[i..], off, more)
    {
      assert list[i..][1..] == list[i + 1..];
      var cur := HeaderOf(bufs[i], list[i]);
      if StartOf(cur) != off {
        return false;
      }
      off := off + (cur.totalLen - 4 * cur.shdr);
      more := cur.more;
      i := i + 1;
    }
    return bufs != [] && !more;
  }

  /** frag_free_buf_list: every buffer of the list loses one reference. */
  method FreeAll(pool: PktPool, bufs: seq<PktBuf>)
    requires Separate(bufs)
    modifies pool`blockList, pool`pktbufList, bufs`ref
    ensures forall i :: 0 <= i < |bufs| ==> bufs[i].ref == old(bufs[i].ref) - 1
  {
    var i := 0;
    while i < |bufs|
      invariant 0 <= i <= |bufs|
      invariant forall j :: 0 <= j < |bufs| ==> bufs[j].ref == old(bufs[j].ref) - (if j < i then 1 else 0)
    {
      pool.Free(bufs[i]);
      i := i + 1;
    }
  }

  // ------------------------------------------------------------------ the table

  /** How often a buffer occurs in a list, and in the lists of all entries. */
  ghost function Num(s: seq<PktBuf>, x: PktBuf): (r: nat) {
    if s == [] then 0 else (if s[0] == x then 1 else 0) + Num(s[1..], x)
  }

  ghost function NumIn(es: seq<BufEntry>, x: PktBuf): (r: nat) {
    if es == [] then 0 else Num(es[0].bufs, x) + NumIn(es[1..], x)
  }

  lemma {:induction false} NumAppend(a: seq<PktBuf>, b: seq<PktBuf>, x: PktBuf)
    ensures Num(a + b, x) == Num(a, x) + Num(b, x)
  {
    if a == [] {
      assert a + b == b;
    } else {
      NumAppend(a[1..], b, x);
      assert (a + b)[1..] == a[1..] + b;
    }
  }

  lemma {:induction false} NumInAppend(a: seq<BufEntry>, b: seq<BufEntry>, x: PktBuf)
    ensures NumIn(a + b, x) == NumIn(a, x) + NumIn(b, x)
  {
    if a == [] {
      assert a + b == b;
    } else {
      NumInAppend(a[1..], b, x);
      assert (a + b)[1..] == a[1..] + b;
    }
  }

  lemma {:induction false} NumInOne(e: BufEntry, x: PktBuf)
    ensures NumIn([e], x) == Num(e.bufs, x)
  {
    assert [e][1..] == [];
  }

  /** All buffers that wait. */
  ghost function Waiting(es: seq<BufEntry>): (r: set<PktBuf>)
    ensures forall i, x :: 0 <= i < |es| && x in es[i].bufs ==> x in r
  {
    set i, x | 0 <= i < |es| && x in es[i].bufs :: x
  }

  ghost predicate Holds(e: BufEntry, f: Entry)
    reads e.bufs
  {
    e.ip == f.ip && e.id == f.id && Separate(e.bufs) && AllKept(e.bufs, f.list)
  }

  ghost predicate Disjoint(a: seq<PktBuf>, b: seq<PktBuf>) {
    forall x :: x in a ==> x !in b
  }

  /** No buffer waits in two entries. */
  ghost predicate Apart(es: seq<BufEntry>) {
    forall i, j :: 0 <= i < |es| && 0 <= j < |es| && i != j ==> Disjoint(es[i].bufs, es[j].bufs)
  }

  ghost predicate Matches(es: seq<BufEntry>, fs: seq<Entry>)
    reads Waiting(es)
  {
    |es| == |fs| && forall i :: 0 <= i < |es| ==> Holds(es[i], fs[i])
  }

  /** The entry at `i` brought to the front. */
  function Front<T>(s: seq<T>, i: nat): (r: seq<T>)
    requires i < |s|
  {
    [s[i]] + (s[..i] + s[i + 1..])
  }

  lemma {:induction false} FrontKeeps(es: seq<BufEntry>, fs: seq<Entry>, i: nat)
    requires i < |es| && Matches(es, fs) && Apart(es)
    ensures Matches(Front(es, i), Front(fs, i)) && Apart(Front(es, i))
  {
    hide Holds, Disjoint;
    var r := Front(es, i);
    assert forall j :: 0 <= j < |r| ==> r[j] == es[if j == 0 then i else if j <= i then j - 1 else j];
  }

  lemma {:induction false} FrontCount(es: seq<BufEntry>, i: nat, x: PktBuf)
    requires i < |es|
    ensures NumIn(Front(es, i), x) == NumIn(es, x)
  {
    hide NumIn;
    assert es == es[..i] + ([es[i]] + es[i + 1..]);
    NumInAppend(es[..i], [es[i]] + es[i + 1..], x);
    NumInAppend([es[i]], es[i + 1..], x);
    NumInAppend([es[i]], es[..i] + es[i + 1..], x);
    NumInAppend(es[..i], es[i + 1..], x);
  }

  lemma {:induction false} FrontSet(es: seq<BufEntry>, i: nat)
    requires i < |es|
    ensures Waiting(Front(es, i)) == Waiting(es)
  {
    var r := Front(es, i);
    forall x | x in Waiting(es) ensures x in Waiting(r) {
      var j :| 0 <= j < |es| && x in es[j].bufs;
      assert r[if j == i then 0 else if j < i then j + 1 else j] == es[j];
    }
    forall x | x in Waiting(r) ensures x in Waiting(es) {
      var j :| 0 <= j < |r| && x in r[j].bufs;
      assert es[if j == 0 then i else if j <= i then j - 1 else j] == r[j];
    }
  }

  // ------------------------------------------------------------------ where a buffer went

  /** The buffers received, handed to the upper layer, refused (they stay with the caller), and
      given back, by pktbuf_free or by pktbuf_join. */
  datatype Account = Account(received: seq<PktBuf>, handed: seq<PktBuf>, refused: seq<PktBuf>, dropped: seq<PktBuf>)

  /** Each of the buffers `all` that was received waits, or went one of the three ways, once for
      each time it was received. */
  ghost predicate Balanced(all: set<PktBuf>, es: seq<BufEntry>, acc: Account) {
    forall x :: x in all ==>
      Num(acc.received, x) == NumIn(es, x) + Num(acc.handed, x) + Num(acc.refused, x) + Num(acc.dropped, x)
  }

  lemma {:induction false} BalancedFront(all: set<PktBuf>, es: seq<BufEntry>, acc: Account, i: nat)
    requires Balanced(all, es, acc) && i < |es|
    ensures Balanced(all, Front(es, i), acc)
  {
    hide Num, NumIn, Front;
    forall x | x in all ensures NumIn(Front(es, i), x) == NumIn(es, x) {
      FrontCount(es, i, x);
    }
  }

  lemma {:induction false} BalancedNew(all: set<PktBuf>, es: seq<BufEntry>, acc: Account, e: BufEntry)
    requires Balanced(all, es, acc) && e.bufs == []
    ensures Balanced(all, [e] + es, acc)
  {
    assert ([e] + es)[1..] == es;
  }

  lemma {:induction false} BalancedEvict(all: set<PktBuf>, es: seq<BufEntry>, acc: Account)
    requires Balanced(all, es, acc) && es != []
    ensures Balanced(all, es[..|es| - 1], acc.(dropped := acc.dropped + es[|es| - 1].bufs))
  {
    hide Num, NumIn;
    var n := |es| - 1;
    forall x | x in all
      ensures NumIn(es, x) == NumIn(es[..n], x) + Num(es[n].bufs, x)
      ensures Num(acc.dropped + es[n].bufs, x) == Num(acc.dropped, x) + Num(es[n].bufs, x)
    {
      assert es == es[..n] + [es[n]];
      NumInAppend(es[..n], [es[n]], x);
      NumInOne(es[n], x);
      NumAppend(acc.dropped, es[n].bufs, x);
    }
  }

  lemma {:induction false} NumLast(s: seq<PktBuf>, b: PktBuf, x: PktBuf)
    ensures Num(s + [b], x) == Num(s, x) + if b == x then 1 else 0
  {
    NumAppend(s, [b], x);
    assert [b][1..] == [];
  }

  lemma {:induction false} BalancedRefuse(all: set<PktBuf>, es: seq<BufEntry>, acc: Account, buf: PktBuf)
    requires Balanced(all, es, acc)
    ensures Balanced(all, es, acc.(received := acc.received + [buf], refused := acc.refused + [buf]))
  {
    hide Num, NumIn;
    forall x | x in all
      ensures Num(acc.received + [buf], x) - Num(acc.received, x) == Num(acc.refused + [buf], x) - Num(acc.refused, x)
    {
      NumLast(acc.received, buf, x);
      NumLast(acc.refused, buf, x);
    }
  }

  /** The first entry is given up. */
  lemma {:induction false} BalancedDrop(all: set<PktBuf>, es: seq<BufEntry>, acc: Account)
    requires Balanced(all, es, acc) && es != []
    ensures Balanced(all, es[1..], acc.(dropped := acc.dropped + es[0].bufs))
  {
    hide Num;
    forall x | x in all ensures Num(acc.dropped + es[0].bufs, x) == Num(acc.dropped, x) + Num(es[0].bufs, x) {
      NumAppend(acc.dropped, es[0].bufs, x);
    }
  }

  lemma {:induction false} NumInsert(s: seq<PktBuf>, k: nat, b: PktBuf, x: PktBuf)
    requires k <= |s|
    ensures Num(s[..k] + [b] + s[k..], x) == Num(s, x) + if b == x then 1 else 0
  {
    hide Num;
    assert s == s[..k] + s[k..];
    NumAppend(s[..k], s[k..], x);
    NumAppend(s[..k] + [b], s[k..], x);
    NumLast(s[..k], b, x);
  }

  /** The buffer goes into the first entry. */
  lemma {:induction false} BalancedKeep(all: set<PktBuf>, es: seq<BufEntry>, acc: Account, k: nat, buf: PktBuf)
    requires Balanced(all, es, acc) && es != [] && k <= |es[0].bufs|
    ensures var r := es[0].bufs[..k] + [buf] + es[0].bufs[k..];
            Balanced(all, [es[0].(bufs := r)] + es[1..], acc.(received := acc.received + [buf]))
  {
    hide Num;
    var r := es[0].bufs[..k] + [buf] + es[0].bufs[k..];
    assert ([es[0].(bufs := r)] + es[1..])[1..] == es[1..];
    forall x | x in all
      ensures Num(acc.received + [buf], x) - Num(acc.received, x) == Num(r, x) - Num(es[0].bufs, x)
    {
      NumInsert(es[0].bufs, k, buf, x);
      NumLast(acc.received, buf, x);
    }
  }

  /** The first entry is complete: one buffer goes up, the others are joined to it. */
  lemma {:induction false} BalancedJoin(all: set<PktBuf>, es: seq<BufEntry>, acc: Account)
    requires Balanced(all, es, acc) && es != [] && es[0].bufs != []
    ensures Balanced(all, es[1..],
                     acc.(handed := acc.handed + [es[0].bufs[0]], dropped := acc.dropped + es[0].bufs[1..]))
  {
    hide Num;
    var b := es[0].bufs;
    forall x | x in all
      ensures Num(b, x) == (Num(acc.handed + [b[0]], x) - Num(acc.handed, x)) +
                           (Num(acc.dropped + b[1..], x) - Num(acc.dropped, x))
    {
      NumLast(acc.handed, b[0], x);
      NumAppend(acc.dropped, b[1..], x);
      NumFirst(b, x);
    }
  }

  lemma {:induction false} NumFirst(b: seq<PktBuf>, x: PktBuf)
    requires b != []
    ensures Num(b, x) == (if b[0] == x then 1 else 0) + Num(b[1..], x)
  {
  }

  // ------------------------------------------------------------------ ipv4_frag_in

  /** What became of the buffer received: with a datagram handed up, it is the buffer handed up or
      was joined to it and given back; without one it was not given back. */
  ghost predicate Fate(buf: PktBuf, whole: Option<PktBuf>, drops: seq<PktBuf>, waited: set<PktBuf>) {
    if whole.None? then buf !in drops
    else whole.value !in drops && (whole.value == buf || (buf in drops && whole.value in waited))
  }

  /** frag_list and frag_mblock, and what the buffers stand for. */
  class BufTable {
    const pool: PktPool
    var entries: seq<BufEntry>
    var free: nat
    ghost var table: Table
    ghost var acc: Account
    ghost const all: set<PktBuf>

    ghost predicate Valid()
      reads this, Waiting(entries)
    {
      && |entries| + free == FRAGS_MAX && table.free == free && Matches(entries, table.entries) && Apart(entries)
      && Balanced(all, entries, acc)
    }

    /** init_ip. */
    constructor (pool: PktPool, ghost all: set<PktBuf>)
      ensures Valid() && this.pool == pool && this.all == all && table == Table([], FRAGS_MAX)
      ensures acc == Account([], [], [], []) && entries == []
    {
      this.pool, this.all := pool, all;
      entries, free, table, acc := [], FRAGS_MAX, Table([], FRAGS_MAX), Account([], [], [], []);
    }

    /** The loop of frag_find. */
    method Position(ip: Addr) returns (i: nat)
      requires Valid()
      ensures Valid() && i == Find(table.entries, ip) <= |entries| == |table.entries|
    {
      hide Apart, Balanced, Kept, AllKept, Separate, Find;
      i := 0;
      ghost var fs := table.entries;
      assert fs[0..] == fs;
      while i < |entries|
        invariant 0 <= i <= |entries| && Find(fs, ip) == i + Find(fs[i..], ip)
      {
        assert Holds(entries[i], fs[i]);
        FindHere(fs, ip, i);
        if entries[i].ip == ip {
          return;
        }
        FindNext(fs, ip, i);
        i := i + 1;
      }
      FindHere(fs, ip, i);
    }

    /** frag_find; a hit stands first afterwards. */
    method FindEntry(ip: Addr) returns (found: bool)
      requires Valid()
      modifies this`entries, this`table
      ensures Valid() && Waiting(entries) == old(Waiting(entries))
      ensures found <==> Find(old(table).entries, ip) < |old(table).entries|
      ensures var i := Find(old(table).entries, ip);
              table == if found then Table(Front(old(table).entries, i), free) else old(table)
      ensures found ==> entries != []
    {
      hide Apart, Balanced, Front, Find, Holds;
      var i := Position(ip);
      found := i < |entries|;
      if found {
        FrontKeeps(entries, table.entries, i);
        FrontSet(entries, i);
        BalancedFront(all, entries, acc, i);
        FrontLength(entries, i);
        entries := Front(entries, i);
        table := table.(entries := Front(table.entries, i));
      }
    }

    /** frag_alloc when no entry is free: the last one gives back its buffers. */
    method Evict() returns (ghost drops: seq<PktBuf>)
      requires Valid() && entries != []
      modifies this`entries, this`free, this`table, this`acc, pool`blockList, pool`pktbufList, Waiting(entries)`ref
      ensures Valid() && entries == old(entries)[..|old(entries)| - 1] && |old(table).entries| == |old(entries)|
      ensures table == Table(old(table).entries[..|old(entries)| - 1], old(free) + 1)
      ensures Waiting(entries) <= old(Waiting(entries)) && Separate(drops)
      ensures forall x :: x in drops ==> x !in Waiting(entries) && x in old(Waiting(entries))
      ensures acc == old(acc).(dropped := old(acc).dropped + drops)
      ensures forall x :: x in old(Waiting(entries)) ==> x.ref == old(x.ref) - (if x in drops then 1 else 0)
    {
      hide Balanced, Apart, Kept;
      var n := |entries| - 1;
      ApartLast(entries, table.entries);
      BalancedEvict(all, entries, acc);
      drops := entries[n].bufs;
      FreeAll(pool, entries[n].bufs);
      entries, free := entries[..n], free + 1;
      table := Table(table.entries[..n], free);
      acc := acc.(dropped := acc.dropped + drops);
    }

    /** frag_add. */
    method AddFirst(ip: Addr, id: Word16)
      requires Valid() && free > 0
      modifies this`entries, this`free, this`table
      ensures Valid() && entries == [BufEntry(ip, id, [])] + old(entries) && Waiting(entries) == old(Waiting(entries))
      ensures table == Table([Entry(ip, id, [])] + old(table).entries, old(free) - 1)
    {
      hide Balanced, Kept, Apart;
      var e := BufEntry(ip, id, []);
      BalancedNew(all, entries, acc, e);
      NewFirst(entries, table.entries, e);
      entries, free := [e] + entries, free - 1;
      table := Table([Entry(ip, id, [])] + table.entries, free);
    }

    /** frag_find, or frag_alloc and frag_add. */
    method Open(ip: Addr, id: Word16) returns (ghost drops: seq<PktBuf>)
      requires Valid()
      modifies this`entries, this`free, this`table, this`acc, pool`blockList, pool`pktbufList, Waiting(entries)`ref
      ensures Valid() && entries != [] && |old(table).entries| + old(table).free == FRAGS_MAX
      ensures table == Opened(old(table), ip, id)
      ensures Waiting(entries) <= old(Waiting(entries)) && Separate(drops)
      ensures forall x :: x in drops ==> x !in Waiting(entries) && x in old(Waiting(entries))
      ensures acc == old(acc).(dropped := old(acc).dropped + drops)
      ensures forall x :: x in old(Waiting(entries)) ==> x.ref == old(x.ref) - (if x in drops then 1 else 0)
    {
      hide Balanced, Kept, Apart, Find, Holds, Opened, Front;
      OpenedCases(table, ip, id);
      drops := [];
      assert acc.dropped + [] == acc.dropped;
      var found := FindEntry(ip);
      if !found {
        if free == 0 {
          drops := Evict();
        }
        AddFirst(ip, id);
      }
    }

    /** frag_free of the first entry. */
    method GiveUp() returns (ghost drops: seq<PktBuf>)
      requires Valid() && entries != []
      modifies this`entries, this`free, this`table, this`acc, pool`blockList, pool`pktbufList, Waiting(entries)`ref
      ensures Valid() && entries == old(entries)[1..] && |old(table).entries| == |old(entries)|
      ensures table == Table(old(table).entries[1..], old(free) + 1)
      ensures drops == old(entries)[0].bufs && Separate(drops) && Waiting(entries) <= old(Waiting(entries))
      ensures acc == old(acc).(dropped := old(acc).dropped + drops)
      ensures forall x :: x in old(Waiting(entries)) ==> x.ref == old(x.ref) - (if x in drops then 1 else 0)
    {
      hide Balanced, Apart, Kept;
      ApartFirst(entries, table.entries);
      BalancedDrop(all, entries, acc);
      drops := entries[0].bufs;
      FreeAll(pool, entries[0].bufs);
      entries, free := entries[1..], free + 1;
      table := Table(table.entries[1..], free);
      acc := acc.(dropped := acc.dropped + drops);
    }

    /** The buffer stays with the caller. */
    ghost method Refuse(buf: PktBuf)
      requires Valid()
      modifies this`acc
      ensures Valid() && acc == old(acc).(received := old(acc).received + [buf], refused := old(acc).refused + [buf])
    {
      hide Balanced, Apart, Kept;
      BalancedRefuse(all, entries, acc, buf);
      acc := acc.(received := acc.received + [buf], refused := acc.refused + [buf]);
    }

    /** frag_insert into the first entry, which is not full. */
    method AddBuf(buf: PktBuf, ghost p: Packet) returns (err: NetErr)
      requires Valid() && entries != [] && Kept(buf, p) && buf !in Waiting(entries)
      modifies this`entries, this`table, this`acc
      ensures Valid() && |old(table).entries| == |old(entries)|
      ensures match Insert(old(table).entries[0].list, p)
              case None => err == EXIST && table == old(table) && entries == old(entries)
              case Some(l) =>
                && err == OK && entries != []
                && table == Table([old(table).entries[0].(list := l)] + old(table).entries[1..], free)
                && Waiting(entries) == old(Waiting(entries)) + {buf} && buf in entries[0].bufs
      ensures acc == old(acc).(received := old(acc).received + [buf],
                               refused := old(acc).refused + (if err == OK then [] else [buf]))
    {
      hide Balanced, Apart, Kept, Insert;
      var e := entries[0];
      ghost var f := table.entries[0];
      assert Holds(e, f);
      var r;
      ghost var k;
      err, r, k := InsertBuf(e.bufs, buf, f.list, p);
      assert acc.refused + [] == acc.refused;
      if err != OK {
        Refuse(buf);
        return;
      }
      ghost var l := f.list[..k] + [p] + f.list[k..];
      BalancedKeep(all, entries, acc, k, buf);
      Inserted(entries, table.entries, k, buf, p);
      entries := [e.(bufs := r)] + entries[1..];
      table := table.(entries := [f.(list := l)] + table.entries[1..]);
      acc := acc.(received := acc.received + [buf]);
    }

    /** frag_join and frag_free for a first entry that is complete. */
    method Complete() returns (target: PktBuf, ghost drops: seq<PktBuf>)
      requires Valid() && entries != [] && entries[0].bufs != []
      modifies this`entries, this`free, this`table, this`acc, pool, Waiting(entries)
      ensures Valid() && entries == old(entries)[1..] && |old(table).entries| == |old(entries)|
      ensures table == Table(old(table).entries[1..], old(free) + 1)
      ensures old(table).entries[0].list != [] && target == old(entries)[0].bufs[0]
      ensures target.Ok() && target.Bytes() == Reassembly.Joined(old(table).entries[0].list)
      ensures drops == old(entries)[0].bufs[1..] && Separate(drops) && target !in drops
      ensures forall x :: x in Waiting(entries) ==> x !in old(entries)[0].bufs
      ensures acc == old(acc).(handed := old(acc).handed + [target], dropped := old(acc).dropped + drops)
      ensures forall x :: x in old(Waiting(entries)) ==> x.ref == old(x.ref) - (if x in drops then 1 else 0)
    {
      hide Balanced, Apart, Flat, Kept, Reassembly.Joined;
      ApartFirst(entries, table.entries);
      BalancedJoin(all, entries, acc);
      var bufs := entries[0].bufs;
      ghost var list := table.entries[0].list;
      KeptCarry(bufs, list);
      target := JoinBufs(pool, bufs, list);
      drops := bufs[1..];
      entries, free := entries[1..], free + 1;
      table := Table(table.entries[1..], free);
      acc := acc.(handed := acc.handed + [target], dropped := acc.dropped + drops);
    }

    /** ipv4_frag_in behind the choice of the entry, which stands first. */
    method Settle(buf: PktBuf, ghost p: Packet) returns (err: NetErr, whole: Option<PktBuf>, ghost drops: seq<PktBuf>)
      requires Valid() && entries != [] && Kept(buf, p) && buf !in Waiting(entries)
      modifies this`entries, this`free, this`table, this`acc, pool, Waiting(entries), buf
      ensures Valid() && |old(table).entries| == |old(entries)|
      ensures var f, rest := old(table).entries[0], old(table).entries[1..]; var o := Accept(f.list, p);
              && table == (if o.list == [] then Table(rest, old(free) + 1)
                           else Table([f.(list := o.list)] + rest, old(free)))
              && err == o.err && (whole.Some? <==> o.out.Some?)
              && (whole.Some? ==> whole.value.Ok() && whole.value.Bytes() == o.out.value)
      ensures acc == Account(old(acc).received + [buf],
                             old(acc).handed + (if whole.Some? then [whole.value] else []),
                             old(acc).refused + (if err == OK then [] else [buf]), old(acc).dropped + drops)
      ensures Separate(drops) && forall x :: x in drops ==> x in old(Waiting(entries)) || x == buf
      ensures Fate(buf, whole, drops, old(Waiting(entries)))
      ensures whole.Some? ==> whole.value !in Waiting(entries)
      ensures whole.Some? || err != OK ==> buf !in Waiting(entries)
      ensures forall x :: x in old(Waiting(entries)) || x == buf ==> x.ref == old(x.ref) - (if x in drops then 1 else 0)
    {
      hide Balanced, Kept, Apart, Holds, Insert, Arrived, Flat, Reassembly.Joined;
      whole, drops := None, [];
      FirstList(entries, table.entries);
      ghost var u := table;
      assert u.entries == [u.entries[0].(list := u.entries[0].list)] + u.entries[1..];
      NothingMore(acc);
      InsertSome(u.entries[0].list, p);
      if |entries[0].bufs| >= FRAGS_MAX {
        drops := GiveUp();
        Refuse(buf);
        err := FULL;
        return;
      }
      err := AddBuf(buf, p);
      if err == OK {
        FirstList(entries, table.entries);
        var done := ArrivedBufs(entries[0].bufs, table.entries[0].list);
        if done {
          var target;
          target, drops := Complete();
          whole := Some(target);
        }
      }
    }

    /** ipv4_frag_in, which returns the buffer that it hands to ipv4_normal_in. The table behaves as
        FragTable says, and `drops` are the buffers that lost their reference, each once. */
    method Receive(ip: Addr, buf: PktBuf, ghost p: Packet)
      returns (err: NetErr, whole: Option<PktBuf>, ghost drops: seq<PktBuf>)
      requires Valid() && Kept(buf, p) && buf !in Waiting(entries)
      modifies this`entries, this`free, this`table, this`acc, pool, Waiting(entries), buf
      ensures Valid() && |old(table).entries| + old(table).free == FRAGS_MAX
      ensures var r := FragIn(old(table), ip, p);
              && table == r.table && err == r.err && (whole.Some? <==> r.out.Some?)
              && (whole.Some? ==> whole.value.Ok() && whole.value.Bytes() == r.out.value)
      ensures acc == Account(old(acc).received + [buf],
                             old(acc).handed + (if whole.Some? then [whole.value] else []),
                             old(acc).refused + (if err == OK then [] else [buf]), old(acc).dropped + drops)
      ensures Separate(drops) && Fate(buf, whole, drops, old(Waiting(entries)))
      ensures whole.Some? ==> whole.value !in Waiting(entries)
      ensures whole.Some? || err != OK ==> buf !in Waiting(entries)
      ensures forall x :: x in old(Waiting(entries)) || x == buf ==> x.ref == old(x.ref) - (if x in drops then 1 else 0)
    {
      hide Balanced, Kept, Apart, Holds, Accept, Flat, Find;
      var h := HeaderOf(buf, p);
      ghost var evicted := Open(ip, h.id);
      err, whole, drops := Settle(buf, p);
      DropsAdd(old(acc).dropped, evicted, drops);
      drops := evicted + drops;
    }

    /** ipv4_in up to the choice between a fragment and a whole packet. */
    method Arrive(buf: PktBuf) returns (h: Header)
      requires buf.Ok() && buf.ref >= 1
      requires Received(buf.Bytes()).Some? && Received(buf.Bytes()).value.hdr.totalLen >= HDR_SIZE
      modifies pool`blockList, buf`blkList, buf`totalSize
      ensures h == Received(old(buf.Bytes())).value.hdr && Kept(buf, Received(old(buf.Bytes())).value)
    {
      hide Flat, Fields, Htons;
      ghost var p, host := Received(buf.Bytes()).value, Htons(buf.Bytes());
      HostFields(host, p.hdr.totalLen);
      var err := Ipv4In(pool, buf);
      assert buf.Bytes() == host[..p.hdr.totalLen];
      h := HeaderOf(buf, p);
    }

    /** ipv4_in for a fragment: from the bytes that the link layer delivers to the table. */
    method FrameIn(buf: PktBuf) returns (err: NetErr, whole: Option<PktBuf>, ghost drops: seq<PktBuf>)
      requires Valid() && buf.Ok() && buf.ref >= 1 && buf !in Waiting(entries)
      requires Received(buf.Bytes()).Some? && Received(buf.Bytes()).value.hdr.totalLen >= HDR_SIZE
      modifies this`entries, this`free, this`table, this`acc, pool, Waiting(entries), buf
      ensures Valid() && |old(table).entries| + old(table).free == FRAGS_MAX
      ensures var p := Received(old(buf.Bytes())).value; var r := FragIn(old(table), p.hdr.src, p);
              && table == r.table && err == r.err && (whole.Some? <==> r.out.Some?)
              && (whole.Some? ==> whole.value.Ok() && whole.value.Bytes() == r.out.value)
      ensures acc == Account(old(acc).received + [buf],
                             old(acc).handed + (if whole.Some? then [whole.value] else []),
                             old(acc).refused + (if err == OK then [] else [buf]), old(acc).dropped + drops)
      ensures Separate(drops) && Fate(buf, whole, drops, old(Waiting(entries)))
      ensures forall x :: x in old(Waiting(entries)) || x == buf ==> x.ref == old(x.ref) - (if x in drops then 1 else 0)
    {
      hide Balanced, Apart, Holds, FragIn, Flat, Kept, Received;
      ghost var p := Received(buf.Bytes()).value;
      var h := Arrive(buf);
      err, whole, drops := Receive(h.src, buf, p);
    }
  }

  lemma {:induction false} OpenedCases(t: Table, ip: Addr, id: Word16)
    requires |t.entries| + t.free == FRAGS_MAX
    ensures var i, e := Find(t.entries, ip), [Entry(ip, id, [])];
            Opened(t, ip, id) == if i < |t.entries| then Table(Front(t.entries, i), t.free)
                                 else if t.free > 0 then Table(e + t.entries, t.free - 1)
                                 else Table(e + t.entries[..|t.entries| - 1], t.free)
  {
  }

  lemma {:induction false} FindHere(fs: seq<Entry>, ip: Addr, i: nat)
    requires i <= |fs|
    ensures i == |fs| || fs[i].ip == ip ==> Find(fs[i..], ip) == 0
  {
  }

  lemma {:induction false} InsertSome(list: seq<Packet>, p: Packet)
    ensures if Insert(list, p).None? then list != [] else Insert(list, p).value != []
  {
  }

  lemma {:induction false} NothingMore(acc: Account)
    ensures acc.handed + [] == acc.handed && acc.refused + [] == acc.refused && acc.dropped + [] == acc.dropped
  {
  }

  lemma {:induction false} FirstList(es: seq<BufEntry>, fs: seq<Entry>)
    requires Matches(es, fs) && es != []
    ensures AllKept(es[0].bufs, fs[0].list) && |es[0].bufs| == |fs[0].list|
  {
    assert Holds(es[0], fs[0]);
  }

  lemma {:induction false} DropsAdd(a: seq<PktBuf>, b: seq<PktBuf>, c: seq<PktBuf>)
    requires Separate(b) && Separate(c) && Disjoint(b, c)
    ensures a + b + c == a + (b + c) && Separate(b + c)
  {
    forall i, j | 0 <= i < |b| && 0 <= j < |c| ensures b[i] != c[j] {
      assert b[i] in b && c[j] in c;
    }
  }

  lemma {:induction false} HostFields(s: seq<Byte>, n: nat)
    requires HDR_SIZE <= n <= |s|
    ensures Fields(s[..n]) == Fields(s) && s[..n][0] % 16 == Fields(s).shdr
  {
    assert s[..n][12..16] == s[12..16] && s[..n][16..20] == s[16..20];
  }

  lemma {:induction false} KeptCarry(bufs: seq<PktBuf>, list: seq<Packet>)
    requires AllKept(bufs, list)
    ensures forall i :: 0 <= i < |bufs| ==> Carries(bufs[i], list[i])
  {
  }

  lemma {:induction false} NewFirst(es: seq<BufEntry>, fs: seq<Entry>, e: BufEntry)
    requires Apart(es) && Matches(es, fs) && e.bufs == []
    ensures Apart([e] + es) && Matches([e] + es, [Entry(e.ip, e.id, [])] + fs) && Waiting([e] + es) == Waiting(es)
  {
    hide Kept;
    var r := [e] + es;
    assert forall i :: 0 < i < |r| ==> r[i] == es[i - 1];
    forall x | x in Waiting(es) ensures x in Waiting(r) {
      var i :| 0 <= i < |es| && x in es[i].bufs;
      assert r[i + 1] == es[i];
    }
  }

  lemma {:induction false} ApartFirst(es: seq<BufEntry>, fs: seq<Entry>)
    requires Apart(es) && Matches(es, fs) && es != []
    ensures Apart(es[1..]) && Matches(es[1..], fs[1..]) && Waiting(es[1..]) <= Waiting(es)
    ensures Separate(es[0].bufs) && AllKept(es[0].bufs, fs[0].list)
    ensures forall x :: x in Waiting(es[1..]) ==> x !in es[0].bufs
  {
    hide AllKept;
    assert Holds(es[0], fs[0]);
    forall i | 0 <= i < |es| - 1 ensures es[1..][i] == es[i + 1] && Holds(es[i + 1], fs[i + 1]) {
    }
  }

  /** A buffer that did not wait goes into the first entry. */
  lemma {:induction false} Inserted(es: seq<BufEntry>, fs: seq<Entry>, k: nat, buf: PktBuf, p: Packet)
    requires Apart(es) && Matches(es, fs) && es != [] && k <= |es[0].bufs| && buf !in Waiting(es) && Kept(buf, p)
    ensures |fs[0].list| == |es[0].bufs|
    ensures var e := es[0].(bufs := es[0].bufs[..k] + [buf] + es[0].bufs[k..]);
            var f := fs[0].(list := fs[0].list[..k] + [p] + fs[0].list[k..]);
            && Apart([e] + es[1..]) && Matches([e] + es[1..], [f] + fs[1..])
            && Waiting([e] + es[1..]) == Waiting(es) + {buf}
  {
    hide Kept;
    assert Holds(es[0], fs[0]);
    var e := es[0].(bufs := es[0].bufs[..k] + [buf] + es[0].bufs[k..]);
    var f := fs[0].(list := fs[0].list[..k] + [p] + fs[0].list[k..]);
    var r := [e] + es[1..];
    assert Holds(e, f);
    assert forall i :: 0 < i < |r| ==> r[i] == es[i];
    InsertedSet(es, k, buf);
  }

  lemma {:induction false} InsertedSet(es: seq<BufEntry>, k: nat, buf: PktBuf)
    requires es != [] && k <= |es[0].bufs|
    ensures var e := es[0].(bufs := es[0].bufs[..k] + [buf] + es[0].bufs[k..]);
            && (forall x :: x in e.bufs <==> x in es[0].bufs || x == buf)
            && Waiting([e] + es[1..]) == Waiting(es) + {buf}
  {
    var e := es[0].(bufs := es[0].bufs[..k] + [buf] + es[0].bufs[k..]);
    var r := [e] + es[1..];
    assert forall x :: x in e.bufs <==> x in es[0].bufs || x == buf;
    forall x | x in Waiting(es) ensures x in Waiting(r) {
      var i :| 0 <= i < |es| && x in es[i].bufs;
      assert x in r[i].bufs;
    }
    assert buf in r[0].bufs;
  }

  lemma {:induction false} ApartLast(es: seq<BufEntry>, fs: seq<Entry>)
    requires Apart(es) && Matches(es, fs) && es != []
    ensures var n := |es| - 1;
            && Apart(es[..n]) && Matches(es[..n], fs[..n]) && Waiting(es[..n]) <= Waiting(es)
            && Separate(es[n].bufs)
            && (forall x :: x in Waiting(es[..n]) ==> x !in es[n].bufs)
  {
    hide AllKept;
    var n := |es| - 1;
    assert Holds(es[n], fs[n]);
    forall i | 0 <= i < n ensures es[..n][i] == es[i] && Holds(es[i], fs[i]) {
    }
  }

  lemma {:induction false} FrontLength(es: seq<BufEntry>, i: nat)
    requires i < |es|
    ensures |Front(es, i)| == |es|
  {
  }
}
