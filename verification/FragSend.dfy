/** ipv4_frag_out of kernel/net/ip.c on packet buffers: it sends exactly the fragments that
    Fragmentation describes. */
module FragSend {
  import opened Chunks
  import opened Checksum
  import opened Pktbuf
  import opened PktCursor
  import opened Ipv4
  import opened Reassembly
  import opened Fragmentation

  /** The layer below: it takes `room` more packets before netif_out fails. */
  class Netif {
    var room: nat
    ghost var sent: seq<seq<Byte>>

    /** netif_out. */
    method Out(buf: PktBuf) returns (err: NetErr)
      modifies this
      ensures err == if old(room) > 0 then OK else FULL
      ensures room == if err == OK then old(room) - 1 else old(room)
      ensures sent == if err == OK then old(sent) + [buf.Bytes()] else old(sent)
    {
      if room == 0 {
        return FULL;
      }
      room := room - 1;
      sent := sent + [buf.Bytes()];
      return OK;
    }
  }

  ghost function FramesOf(fs: seq<Packet>): (r: seq<seq<Byte>>)
    ensures |r| == |fs| && forall i :: 0 <= i < |fs| ==> r[i] == Frame(fs[i])
  {
    seq(|fs|, i requires 0 <= i < |fs| => Frame(fs[i]))
  }

  /** Steps 1 to 3 for one fragment: a new buffer with the header in host order and the next
      `n` bytes of `buf`, which stay in `buf`. */
  method BuildFragment(pool: PktPool, buf: PktBuf, h: Header, n: nat) returns (res: Option<PktBuf>)
    requires CursorOk(buf) && buf.pos == 0 && 0 < n <= buf.totalSize && buf !in pool.pktbufList
    modifies pool, buf`pos, buf`currIdx, buf`blkOffset, if pool.pktbufList == [] then {} else {pool.pktbufList[0]}
    ensures CursorOk(buf)
    ensures res.Some? <==> old(pool.pktbufList) != [] && BlocksFor(n + HDR_SIZE) <= |old(pool.blockList)|
    ensures res.None? ==> |pool.pktbufList| == |old(pool.pktbufList)| && |pool.blockList| == |old(pool.blockList)|
    ensures res.Some? ==>
              && old(pool.pktbufList) == [res.value] + pool.pktbufList
              && res.value.Ok() && res.value.ref == 1 && res.value.pos > 0 && HeaderReady(res.value)
              && n <= |buf.Bytes()| && res.value.Bytes() == Host(h) + buf.Bytes()[..n]
    ensures res.None? ==> pool.pktbufList == [] || buf !in pool.pktbufList
  {
    res := pool.Alloc(n + HDR_SIZE);
    if res.None? {
      return;
    }
    FillFragment(res.value, buf, h, n);
  }

  /** Header and data of one fragment, stored in the blocks of a new buffer. */
  method FillFragment(dest: PktBuf, buf: PktBuf, h: Header, n: nat)
    requires CursorOk(buf) && buf.pos == 0 && 0 < n <= buf.totalSize && buf != dest
    requires dest.Ok() && Packed(dest.blkList, false) && dest.totalSize == n + HDR_SIZE
    requires dest.pos == 0 && dest.currIdx == 0 && dest.blkOffset == 0
    modifies dest`blkList, dest`pos, dest`currIdx, dest`blkOffset, buf`pos, buf`currIdx, buf`blkOffset
    ensures CursorOk(buf) && dest.Ok() && dest.pos > 0 && HeaderReady(dest)
    ensures n <= |buf.Bytes()| && dest.Bytes() == Host(h) + buf.Bytes()[..n]
  {
    hide Flat, Splice, Host;
    NonEmptyChain(dest.blkList);
    PackedFirst(dest.blkList);
    ghost var raw := dest.Bytes();
    PokeFirst(dest, 0, Host(h));
    ResetAt(dest.blkList);
    var e := Seek(dest, HDR_SIZE);
    e := Copy(dest, buf, n);
    assert buf.Bytes()[0..n] == buf.Bytes()[..n];
    HeadAndData(raw, Host(h), buf.Bytes()[..n]);
  }

  lemma {:induction false} HeadAndData(raw: seq<Byte>, head: seq<Byte>, d: seq<Byte>)
    requires |raw| == |head| + |d|
    ensures Splice(Splice(raw, 0, head), |head|, d) == head + d
  {
  }

  /** The header is in one block. */
  ghost predicate HeaderWhole(buf: PktBuf)
    reads buf
  {
    buf.blkList != [] && buf.blkList[0].size >= HDR_SIZE
  }

  ghost predicate HeaderReady(dest: PktBuf)
    reads dest
  {
    HeaderWhole(dest) && NonEmpty(dest.blkList)
  }

  /** iphdr_htons through pktbuf_data. */
  method IphdrHtons(buf: PktBuf)
    requires buf.Ok() && HeaderWhole(buf)
    modifies buf`blkList
    ensures buf.Ok() && HeaderWhole(buf) && SameShape(buf.blkList, old(buf.blkList))
    ensures NonEmpty(old(buf.blkList)) ==> NonEmpty(buf.blkList)
    ensures |old(buf.Bytes())| >= HDR_SIZE && buf.Bytes() == Htons(old(buf.Bytes()))
  {
    hide Flat, Splice, SameShape;
    var b2 := PeekFirst(buf, 2);
    var b3 := PeekFirst(buf, 3);
    var b4 := PeekFirst(buf, 4);
    var b5 := PeekFirst(buf, 5);
    var b6 := PeekFirst(buf, 6);
    var b7 := PeekFirst(buf, 7);
    FirstHolds(buf.blkList);
    HtonsIsSplice(buf.Bytes());
    PokeFirst(buf, 2, [b3, b2, b5, b4, b7, b6]);
    ShapeKeepsHeader(buf.blkList, old(buf.blkList));
  }

  lemma {:induction false} HtonsIsSplice(s: seq<Byte>)
    requires |s| >= HDR_SIZE
    ensures Splice(s, 2, [s[3], s[2], s[5], s[4], s[7], s[6]]) == Htons(s)
  {
  }

  lemma {:induction false} FirstHolds(bs: seq<Block>)
    requires bs != []
    ensures bs[0].size <= |Flat(bs)|
  {
    FlatFirst(bs);
  }

  lemma {:induction false} ShapeKeepsHeader(a: seq<Block>, b: seq<Block>)
    requires SameShape(a, b) && b != [] && b[0].size >= HDR_SIZE
    ensures a != [] && a[0].size >= HDR_SIZE && (NonEmpty(b) ==> NonEmpty(a))
  {
  }

  /** Network order and the header checksum. */
  method SealHeader(dest: PktBuf, ghost h: Header, ghost data: seq<Byte>)
    requires dest.Ok() && HeaderReady(dest) && dest.pos > 0 && h.checksum == 0
    requires dest.Bytes() == Host(h) + data
    modifies dest
    ensures dest.Ok() && dest.ref == old(dest.ref)
    ensures dest.Bytes() == Wire(h.(checksum := Complement(AreaSum(Wire(h), 0)))) + data
  {
    hide Flat, Splice, Host, Wire, Htons, AreaSum, WordSum;
    IphdrHtons(dest);
    HtonsWire(h, data);
    FirstHolds(dest.blkList);
    var e := Seek(dest, 0);
    var c := ChecksumArea(dest, HDR_SIZE, 0, true);
    assert dest.Bytes()[0..dest.pos] == Wire(h);
    WordSumFits(Wire(h));
    PokeFirst(dest, 10, Store16(c));
    SpliceHead(Wire(h), data, 10, Store16(c));
    WireChecksum(h, c);
  }

  lemma {:induction false} SpliceHead(a: seq<Byte>, b: seq<Byte>, at: nat, d: seq<Byte>)
    requires at + |d| <= |a|
    ensures Splice(a + b, at, d) == Splice(a, at, d) + b
  {
  }

  /** One turn of the loop of ipv4_frag_out: the first `n` bytes of `buf` leave as a fragment. */
  method SendFragment(pool: PktPool, netif: Netif, buf: PktBuf, flow: Flow, at: nat, n: nat, more: bool)
    returns (err: NetErr)
    requires CursorOk(buf) && buf.pos == 0 && 0 < n <= buf.totalSize && n + HDR_SIZE < TWO16 && buf !in pool.pktbufList
    modifies pool, netif, buf, if pool.pktbufList == [] then {} else {pool.pktbufList[0]}
    ensures buf !in pool.pktbufList && buf.ref == old(buf.ref)
    ensures err == OK ==> forall p :: p in pool.pktbufList ==> p in old(pool.pktbufList)
    ensures err == OK ==>
              && CursorOk(buf) && buf.pos == 0 && n <= |old(buf.Bytes())| && buf.Bytes() == old(buf.Bytes())[n..]
              && netif.sent == old(netif.sent) + [Wire(FragHeader(flow, at, n, more)) + old(buf.Bytes())[..n]]
    ensures err != OK ==> netif.sent == old(netif.sent) && netif.room == old(netif.room)
    ensures err == if old(pool.pktbufList) == [] || BlocksFor(n + HDR_SIZE) > |old(pool.blockList)| then MEM
                   else if old(netif.room) == 0 then FULL else OK
    ensures err == MEM ==> |pool.blockList| == |old(pool.blockList)|
    ensures err == OK ==> netif.room == old(netif.room) - 1
    ensures |pool.pktbufList| == |old(pool.pktbufList)| - (if err == OK then 1 else 0)
  {
    hide Flat, Wire, Host, Splice, AreaSum;
    var h := Blank(flow, at, n, more);
    var res := BuildFragment(pool, buf, h, n);
    if res.None? {
      return MEM;
    }
    var dest := res.value;
    ghost var data := buf.Bytes()[..n];
    var _ := pool.RemoveHeader(buf, n);
    ResetAcc(buf);
    ResetAt(buf.blkList);
    SealHeader(dest, h, data);
    err := netif.Out(dest);
    if err.Failed() {
      pool.Free(dest);
    }
  }

  lemma {:induction false} FramesCons(f: Packet, rest: seq<Packet>)
    ensures FramesOf([f] + rest) == [Frame(f)] + FramesOf(rest)
  {
    hide Frame;
  }

  /** The frames still to be sent from byte `at` on. */
  lemma {:induction false} NextFrame(flow: Flow, payload: seq<Byte>, at: nat, mtu: nat)
    requires 28 <= mtu < TWO16 && at < |payload|
    ensures var n := FragSize(|payload| - at, mtu);
            && 0 < n <= |payload| - at && n + HDR_SIZE < TWO16
            && FramesOf(Fragments(flow, payload, at, mtu)) ==
               [Wire(FragHeader(flow, at, n, n < |payload| - at)) + payload[at..][..n]] +
               FramesOf(Fragments(flow, payload, at + n, mtu))
  {
    hide FragSize, FragHeader, Wire, Unit, MaxData;
    FragSizeFacts(|payload| - at, mtu);
    var n := FragSize(|payload| - at, mtu);
    var f, rest := Fragment(flow, payload, at, n), Fragments(flow, payload, at + n, mtu);
    assert payload[at..][..n] == payload[at..at + n];
    FramesCons(f, rest);
  }

  /** The frames of the fragments carry the payload. */
  lemma {:induction false} FramesCarry(flow: Flow, payload: seq<Byte>, at: nat, mtu: nat)
    requires 28 <= mtu < TWO16 && at <= |payload| < TWO16 && (at < |payload| ==> at % 8 == 0)
    ensures Carry(FramesOf(Fragments(flow, payload, at, mtu)), flow, payload, at, mtu)
    decreases |payload| - at
  {
    hide Fragment, Frame, WireHead;
    if at < |payload| {
      FragSizeFacts(|payload| - at, mtu);
      var n := FragSize(|payload| - at, mtu);
      var rest := Fragments(flow, payload, at + n, mtu);
      FramesCons(Fragment(flow, payload, at, n), rest);
      FrameSays(flow, payload, at, n);
      FramesCarry(flow, payload, at + n, mtu);
      assert FramesOf(Fragments(flow, payload, at, mtu))[1..] == FramesOf(rest);
    }
  }

  /** Why sending stopped: all frames are sent; or no buffer, or too few blocks, are left for the next
      one; or the layer below takes no more. */
  ghost predicate Stopped(err: NetErr, k: nat, frames: seq<seq<Byte>>, room: nat, bufs: seq<PktBuf>,
                          blocks: seq<Block>)
  {
    match err
    case OK => k == |frames|
    case MEM => k < |frames| && (bufs == [] || BlocksFor(|frames[k]|) > |blocks|)
    case FULL => k < |frames| && room == 0
    case _ => false
  }

  /** The loop of ipv4_frag_out. */
  method SendAll(pool: PktPool, netif: Netif, buf: PktBuf, flow: Flow, mtu: nat) returns (err: NetErr, ghost k: nat)
    requires buf.Ok() && buf.totalSize < TWO16 && 28 <= mtu < TWO16 && buf !in pool.pktbufList
    modifies pool, netif, buf, pool.pktbufList
    ensures var frames := FramesOf(Fragments(flow, old(buf.Bytes()), 0, mtu));
            && k <= |frames| && (err == OK ==> k == |frames|)
            && netif.sent == old(netif.sent) + frames[..k]
    ensures buf.ref == old(buf.ref) && (err == OK ==> buf.Ok() && buf.Bytes() == [])
    ensures Stopped(err, k, FramesOf(Fragments(flow, old(buf.Bytes()), 0, mtu)), netif.room,
                    pool.pktbufList, pool.blockList)
    ensures netif.room == old(netif.room) - k && |pool.pktbufList| == |old(pool.pktbufList)| - k
  {
    hide Flat, Fragments, FragHeader, Wire, FragSize, Unit, MaxData, FramesOf, At;
    ghost var payload := buf.Bytes();
    ghost var frames := FramesOf(Fragments(flow, payload, 0, mtu));
    ResetAcc(buf);
    ResetAt(buf.blkList);
    var offset, total := 0, buf.totalSize;
    k := 0;
    while total > 0
      invariant 0 <= total && offset + total == |payload| < TWO16
      invariant CursorOk(buf) && buf.pos == 0 && buf.Bytes() == payload[offset..] && buf !in pool.pktbufList
      invariant forall p :: p in pool.pktbufList ==> p in old(pool.pktbufList)
      invariant k <= |frames| && frames[k..] == FramesOf(Fragments(flow, payload, offset, mtu))
      invariant netif.sent == old(netif.sent) + frames[..k] && buf.ref == old(buf.ref)
      invariant netif.room == old(netif.room) - k && |pool.pktbufList| == |old(pool.pktbufList)| - k
    {
      var n := FragSize(total, mtu);
      FrameStep(flow, payload, offset, mtu, frames, k);
      assert pool.pktbufList != [] ==> pool.pktbufList[0] in pool.pktbufList;
      ghost var sent := netif.sent;
      err := SendFragment(pool, netif, buf, flow, offset, n, total > n);
      if err.Failed() {
        return;
      }
      assert netif.sent == old(netif.sent) + frames[..k + 1] by {
        SentOne(old(netif.sent), sent, frames, k, netif.sent);
      }
      k := k + 1;
      total := total - n;
      offset := offset + n;
    }
    FragmentsEnd(flow, payload, mtu);
    assert frames[k..] == [];
    return OK, k;
  }

  /** ipv4_frag_out: on success it has sent exactly the fragments of the payload, in order, frames
      that carry it whole; on a failure (no buffer, or the layer below is full) a prefix of them. */
  method FragOut(pool: PktPool, netif: Netif, buf: PktBuf, flow: Flow, mtu: nat) returns (err: NetErr, ghost k: nat)
    requires buf.Ok() && buf.totalSize < TWO16 && 28 <= mtu < TWO16 && buf !in pool.pktbufList
    modifies pool, netif, buf, pool.pktbufList
    ensures var frames := FramesOf(Fragments(flow, old(buf.Bytes()), 0, mtu));
            && Carry(frames, flow, old(buf.Bytes()), 0, mtu)
            && k <= |frames| && (err == OK ==> k == |frames|)
            && netif.sent == old(netif.sent) + frames[..k]
    ensures netif.room == old(netif.room) - k
    ensures err != OK ==>
              && buf.ref == old(buf.ref) && |pool.pktbufList| == |old(pool.pktbufList)| - k
              && Stopped(err, k, FramesOf(Fragments(flow, old(buf.Bytes()), 0, mtu)), netif.room,
                         pool.pktbufList, pool.blockList)
    ensures err == OK ==> buf.Ok() && buf.Bytes() == [] && buf.ref == old(buf.ref) - 1
  {
    hide Flat, Fragments, FramesOf, Carry;
    FramesCarry(flow, buf.Bytes(), 0, mtu);
    err, k := SendAll(pool, netif, buf, flow, mtu);
    if err == OK {
      pool.Free(buf);
    }
  }

  lemma {:induction false} SentOne(before: seq<seq<Byte>>, sent: seq<seq<Byte>>, frames: seq<seq<Byte>>, k: nat,
                                   now: seq<seq<Byte>>)
    requires k < |frames| && sent == before + frames[..k] && now == sent + frames[k..k + 1]
    ensures now == before + frames[..k + 1]
  {
  }

  /** Sending one more of the frames. */
  lemma {:induction false} FrameStep(flow: Flow, payload: seq<Byte>, at: nat, mtu: nat, frames: seq<seq<Byte>>, k: nat)
    requires 28 <= mtu < TWO16 && at < |payload| && k <= |frames|
    requires frames[k..] == FramesOf(Fragments(flow, payload, at, mtu))
    ensures var n := FragSize(|payload| - at, mtu);
            && 0 < n <= |payload| - at && n + HDR_SIZE < TWO16 && k < |frames|
            && frames[k..k + 1] == [Wire(FragHeader(flow, at, n, n < |payload| - at)) + payload[at..][..n]]
            && frames[k + 1..] == FramesOf(Fragments(flow, payload, at + n, mtu))
            && payload[at..][n..] == payload[at + n..]
  {
    hide Fragments, FragHeader, Wire, FragSize, FramesOf;
    NextFrame(flow, payload, at, mtu);
    TakeOne(frames, k);
    DropDrop(payload, at, FragSize(|payload| - at, mtu));
  }

  lemma {:induction false} TakeOne(s: seq<seq<Byte>>, k: nat)
    requires k < |s|
    ensures s[k..k + 1] == [s[k..][0]] && s[k..][1..] == s[k + 1..]
  {
  }

  lemma {:induction false} FragmentsEnd(flow: Flow, payload: seq<Byte>, mtu: nat)
    requires 28 <= mtu < TWO16
    ensures FramesOf(Fragments(flow, payload, |payload|, mtu)) == []
  {
  }
}
