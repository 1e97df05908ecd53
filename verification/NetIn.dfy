/** The way of a received buffer through do_netif_in of kernel/net/exmsg.c, ipv4_in and ipv4_frag_in
    of kernel/net/ip.c: how often each buffer loses a reference. */
module NetIn {
  import opened Chunks
  import opened Pktbuf
  import opened Ipv4
  import opened Reassembly
  import opened FragTable
  import opened Fragmentation
  import opened FragSend
  import opened FragRecv
  import opened FragBufs

  predicate IsFragment(h: Header) {
    h.more || h.offset != 0
  }

  /** The frames covered: too short for a header, or with a length field that is neither shorter than
      the header nor longer than the frame. */
  ghost predicate Framed(bytes: seq<Byte>) {
    |bytes| < HDR_SIZE || (Received(bytes).Some? && Received(bytes).value.hdr.totalLen >= HDR_SIZE)
  }

  /** A whole datagram comes out of the table with this frame. */
  ghost predicate Completes(t: Table, bytes: seq<Byte>)
    requires |t.entries| + t.free == FRAGS_MAX && Framed(bytes) && |bytes| >= HDR_SIZE
  {
    var p := Received(bytes).value;
    IsFragment(p.hdr) && FragIn(t, p.hdr.src, p).out.Some?
  }

  /** The buffer is freed twice: the frame is not for this host, or it completes a datagram that the
      upper layer refuses. */
  ghost predicate FreedTwice(t: Table, bytes: seq<Byte>, mine: bool, upper: NetErr)
    requires |t.entries| + t.free == FRAGS_MAX && Framed(bytes)
  {
    |bytes| >= HDR_SIZE && (!mine || (Completes(t, bytes) && upper.Failed()))
  }

  /** Only fragments for this host reach the table. */
  ghost function TableFor(t: Table, bytes: seq<Byte>, mine: bool): (r: Table)
    requires |t.entries| + t.free == FRAGS_MAX && Framed(bytes)
  {
    if |bytes| < HDR_SIZE || !mine || !IsFragment(Received(bytes).value.hdr) then t
    else FragIn(t, Received(bytes).value.hdr.src, Received(bytes).value).table
  }

  /** What ipv4_in returns for a frame with a header. */
  ghost function ErrorFor(t: Table, bytes: seq<Byte>, mine: bool, upper: NetErr): (r: NetErr)
    requires |t.entries| + t.free == FRAGS_MAX && Framed(bytes) && |bytes| >= HDR_SIZE
  {
    var p := Received(bytes).value;
    if !mine then NOT_MATCH
    else if !IsFragment(p.hdr) then upper
    else
      var r := FragIn(t, p.hdr.src, p);
      if r.out.Some? && upper.Failed() then upper else r.err
  }

  /** ipv4_frag_in to its end: a datagram that the upper layer refuses is freed. */
  method FragmentIn(t: BufTable, buf: PktBuf, h: Header, upper: NetErr, ghost p: Packet)
    returns (err: NetErr, ghost handed: bool, ghost frees: nat)
    requires t.Valid() && Kept(buf, p) && h == p.hdr && buf !in Waiting(t.entries)
    modifies t`entries, t`free, t`table, t`acc, t.pool, Waiting(t.entries), buf
    ensures t.Valid() && |old(t.table).entries| + old(t.table).free == FRAGS_MAX
    ensures var r := FragIn(old(t.table), p.hdr.src, p);
            && t.table == r.table
            && handed == r.out.Some? && err == (if handed && upper.Failed() then upper else r.err)
            && (handed ==> r.err == OK)
    ensures buf.ref == old(buf.ref) - frees
    ensures if !handed then frees == 0 else if upper.Failed() then frees == 1 else frees <= 1
    ensures handed || err != OK ==> buf !in Waiting(t.entries)
    ensures forall x :: x in old(Waiting(t.entries)) ==> old(x.ref) - 1 <= x.ref <= old(x.ref)
  {
    hide Balanced, Apart, Holds, Flat, Kept, Accept, Opened;
    HandedOk(t.table, p);
    ghost var drops: seq<PktBuf>;
    var whole;
    err, whole, drops := t.Receive(h.src, buf, p);
    handed, frees := whole.Some?, if buf in drops then 1 else 0;
    if whole.Some? && upper.Failed() {
      frees := 1;
      t.pool.Free(whole.value);
      err := upper;
    }
  }

  lemma {:induction false} HandedOk(t: Table, p: Packet)
    requires |t.entries| + t.free == FRAGS_MAX
    ensures FragIn(t, p.hdr.src, p).out.Some? ==> FragIn(t, p.hdr.src, p).err == OK
  {
    hide Opened;
  }

  /** ipv4_in: `mine` is the comparison of the destination address with the netmask, and `upper` is
      what the upper layer returns for a packet that it is given, whose reference it leaves alone if
      that is an error. */
  method PacketIn(t: BufTable, buf: PktBuf, mine: bool, upper: NetErr) returns (err: NetErr, ghost frees: nat)
    requires t.Valid() && buf.Ok() && buf.ref >= 1 && buf !in Waiting(t.entries) && Framed(buf.Bytes())
    modifies t`entries, t`free, t`table, t`acc, t.pool, Waiting(t.entries), buf
    ensures t.Valid() && |old(t.table).entries| + old(t.table).free == FRAGS_MAX
    ensures buf.ref == old(buf.ref) - frees && (err.Failed() ==> buf !in Waiting(t.entries))
    ensures err.Failed() ==> frees == if FreedTwice(old(t.table), old(buf.Bytes()), mine, upper) then 1 else 0
    ensures !err.Failed() ==> frees <= 1 && !FreedTwice(old(t.table), old(buf.Bytes()), mine, upper)
    ensures t.table == TableFor(old(t.table), old(buf.Bytes()), mine)
    ensures |old(buf.Bytes())| >= HDR_SIZE ==> err == ErrorFor(old(t.table), old(buf.Bytes()), mine, upper)
    ensures forall x :: x in old(Waiting(t.entries)) ==> old(x.ref) - 1 <= x.ref <= old(x.ref)
  {
    hide Balanced, Apart, Holds, Flat, Kept, FragIn, Received;
    frees := 0;
    if buf.totalSize < HDR_SIZE {
      err := Ipv4In(t.pool, buf);
      return;
    }
    ghost var p := Received(buf.Bytes()).value;
    var h := t.Arrive(buf);
    if !mine {
      t.pool.Free(buf);
      return NOT_MATCH, 1;
    }
    if IsFragment(h) {
      ghost var handed: bool;
      err, handed, frees := FragmentIn(t, buf, h, upper, p);
    } else {
      err := upper;
    }
  }

  /** do_netif_in for one buffer: after an error it frees the buffer. The buffer loses two references
      if and only if the frame is not for this host, or completes a datagram that the upper layer
      refuses, and at most one otherwise; no buffer that waits loses more than one. */
  method NetifIn(t: BufTable, buf: PktBuf, mine: bool, upper: NetErr) returns (err: NetErr, ghost frees: nat)
    requires t.Valid() && buf.Ok() && buf.ref >= 1 && buf !in Waiting(t.entries) && Framed(buf.Bytes())
    modifies t`entries, t`free, t`table, t`acc, t.pool, Waiting(t.entries), buf
    ensures t.Valid() && |old(t.table).entries| + old(t.table).free == FRAGS_MAX
    ensures buf.ref == old(buf.ref) - frees && frees <= 2
    ensures frees == 2 <==> FreedTwice(old(t.table), old(buf.Bytes()), mine, upper)
    ensures err.Failed() ==> frees >= 1
    ensures t.table == TableFor(old(t.table), old(buf.Bytes()), mine)
    ensures forall x :: x in old(Waiting(t.entries)) ==> old(x.ref) - 1 <= x.ref <= old(x.ref)
  {
    hide Balanced, Apart, Holds, Flat, Kept, FragIn, Received, FreedTwice, Framed, TableFor, ErrorFor;
    err, frees := PacketIn(t, buf, mine, upper);
    if err.Failed() {
      t.pool.Free(buf);
      frees := frees + 1;
    }
  }

  /** It happens to every frame for another host: a count of one ends at -1. */
  method OtherHost(t: BufTable, buf: PktBuf, upper: NetErr)
    requires t.Valid() && buf.Ok() && buf.ref == 1 && buf !in Waiting(t.entries)
    requires Framed(buf.Bytes()) && |buf.Bytes()| >= HDR_SIZE
    modifies t`entries, t`free, t`table, t`acc, t.pool, Waiting(t.entries), buf
    ensures t.Valid() && buf.ref == -1
  {
    hide Balanced, Apart, Holds, Flat, Kept, Completes, Received;
    var _, _ := NetifIn(t, buf, false, upper);
  }
}
