/** The receiving half of kernel/net/ip.c on packet buffers. */
module FragRecv {
  import opened Chunks
  import opened Checksum
  import opened Pktbuf
  import opened PktCursor
  import opened Ipv4
  import opened Reassembly
  import opened FragTable
  import opened Fragmentation
  import opened FragSend

  // ------------------------------------------------------------------ ipv4_in

  lemma {:induction false} HasBlock(bs: seq<Block>)
    requires |Flat(bs)| > 0
    ensures bs != []
  {
  }

  lemma {:induction false} TotalField(s: seq<Byte>)
    requires |s| >= HDR_SIZE
    ensures Fields(s).totalLen == Word(s[2], s[3]) && Fields(s).shdr == s[0] % 16
  {
  }

  lemma {:induction false} ResizeKeepsFirst(a: seq<Block>, b: seq<Block>, n: nat)
    requires a != [] && a[0].size >= HDR_SIZE && n >= HDR_SIZE && (BackCut(a, b, n) || Extended(a, b))
    ensures b != [] && b[0].size >= HDR_SIZE
  {
    hide Flat;
    if BackCut(a, b, n) && |b| == 1 {
      assert a[..0] == [];
      FlatNil();
    }
    assert Extended(a, b) && |a| > 1 ==> b[0] == b[..|a| - 1][0] == a[0];
  }

  /** pktbuf_resize to the length in the header. */
  method CutPadding(pool: PktPool, buf: PktBuf, total: nat) returns (err: NetErr)
    requires buf.Ok() && HeaderWhole(buf)
    modifies pool`blockList, buf`blkList, buf`totalSize
    ensures buf.Ok() && Same(pool.blockList, buf.blkList, old(pool.blockList), old(buf.blkList))
    ensures total <= |old(buf.Bytes())| ==> err == OK && buf.Bytes() == old(buf.Bytes())[..total]
    ensures total > |old(buf.Bytes())| ==>
              err.Failed() || (|buf.Bytes()| == total && buf.Bytes()[..|old(buf.Bytes())|] == old(buf.Bytes()))
    ensures err == OK && |buf.Bytes()| >= HDR_SIZE ==> HeaderWhole(buf)
  {
    hide Flat, Count, BackCut, Extended, GrowFits;
    ghost var a, was := buf.blkList, buf.Bytes();
    err := pool.Resize(buf, total);
    if err == OK {
      assert buf.Bytes()[..total] == buf.Bytes() && was[..|was|] == was;
      if total >= HDR_SIZE {
        ResizeKeepsFirst(a, buf.blkList, total);
      }
    }
  }

  /** ipv4_in up to the choice of the upper layer: the header comes into one block, its fields are
      swapped, and what the link layer padded is cut off. */
  method Ipv4In(pool: PktPool, buf: PktBuf) returns (err: NetErr)
    requires buf.Ok()
    modifies pool`blockList, buf`blkList, buf`totalSize
    ensures buf.Ok() && Same(pool.blockList, buf.blkList, old(pool.blockList), old(buf.blkList))
    ensures var was := old(buf.Bytes());
            if |was| < HDR_SIZE then err == SIZE && buf.Bytes() == was
            else
              var host := Htons(was);
              var total: int := Fields(host).totalLen;
              && (total <= |was| ==> err == OK && buf.Bytes() == host[..total])
              && (total > |was| ==> err.Failed() || (|buf.Bytes()| == total && buf.Bytes()[..|was|] == host))
    ensures Received(old(buf.Bytes())).Some? ==>
              err == OK && buf.Bytes() == Received(old(buf.Bytes())).value.head + Received(old(buf.Bytes())).value.data
    ensures err == OK && |buf.Bytes()| >= HDR_SIZE ==> HeaderWhole(buf)
  {
    hide Flat, Count, Htons, Fields, Word;
    ghost var was := buf.Bytes();
    if buf.totalSize >= HDR_SIZE {
      HasBlock(buf.blkList);
    }
    err := pool.SetCont(buf, HDR_SIZE);
    if err.Failed() {
      return;
    }
    ghost var mid := buf.blkList;
    IphdrHtons(buf);
    ghost var host := buf.Bytes();
    TotalField(host);
    var lo := PeekFirst(buf, 2);
    var hi := PeekFirst(buf, 3);
    var total := Word(lo, hi);
    SameShapeSameBlocks(buf.blkList, mid);
    err := CutPadding(pool, buf, total);
    if Received(was).Some? {
      var n := 4 * (host[0] % 16);
      assert host[..total] == host[..n] + host[n..total];
    }
  }

  // ------------------------------------------------------------------ frag_join

  /** The buffer holds this packet, as ipv4_in leaves it. */
  ghost predicate Carries(buf: PktBuf, p: Packet)
    reads buf
  {
    && buf.Ok() && buf.blkList != [] && buf.blkList[0].size > 0 && buf.Bytes() == p.head + p.data
    && buf.Bytes() != [] && buf.Bytes()[0] % 16 == p.hdr.shdr
  }

  lemma {:induction false} CarriesBytes(buf: PktBuf, p: Packet)
    requires Carries(buf, p)
    ensures buf.Ok() && buf.Bytes() == p.head + p.data
  {
  }

  /** One turn of the loop: the header goes, the data moves behind the target. */
  method JoinOne(pool: PktPool, target: PktBuf, cur: PktBuf, ghost p: Packet)
    requires target.Ok() && target != cur && Carries(cur, p)
    modifies pool, target, cur
    ensures target.Ok() && target.Bytes() == old(target.Bytes()) + p.data && cur.blkList == []
    ensures target.ref == old(target.ref) && cur.ref == old(cur.ref) - 1
  {
    hide Flat, Count;
    HasBlock(cur.blkList);
    var b := PeekFirst(cur, 0);
    var hdr := 4 * (b % 16);
    assert hdr == |p.head| && cur.totalSize == |p.head + p.data|;
    var _ := pool.RemoveHeader(cur, hdr);
    assert (p.head + p.data)[hdr..] == p.data;
    var _ := pool.Join(target, cur);
  }

  /** frag_join on the buffers of a list: the first one ends with its header followed by the data
      of all, and the others are empty. */
  method JoinBufs(pool: PktPool, bufs: seq<PktBuf>, ghost list: seq<Packet>) returns (target: PktBuf)
    requires |bufs| == |list| > 0 && forall i :: 0 <= i < |bufs| ==> Carries(bufs[i], list[i])
    requires forall i, j :: 0 <= i < j < |bufs| ==> bufs[i] != bufs[j]
    modifies pool, bufs
    ensures target == bufs[0] && target.Ok() && target.Bytes() == Reassembly.Joined(list)
    ensures forall i :: 0 < i < |bufs| ==> bufs[i].blkList == []
    ensures forall i :: 0 <= i < |bufs| ==> bufs[i].ref == old(bufs[i].ref) - (if i == 0 then 0 else 1)
  {
    hide Flat, Count, DataOf, Carries;
    target := bufs[0];
    CarriesBytes(target, list[0]);
    ghost var all := Reassembly.Joined(list);
    JoinNext(list, 0);
    assert list[0..] == list;
    assert list[0].head + (list[0].data + DataOf(list[1..])) == (list[0].head + list[0].data) + DataOf(list[1..]);
    var i := 1;
    while i < |bufs|
      invariant 1 <= i <= |bufs| && target.Ok() && target.Bytes() + DataOf(list[i..]) == all
      invariant forall j :: i <= j < |bufs| ==> Carries(bufs[j], list[j])
      invariant forall j :: 0 < j < i ==> bufs[j].blkList == []
      invariant forall j :: 0 <= j < |bufs| ==> bufs[j].ref == old(bufs[j].ref) - (if 0 < j < i then 1 else 0)
    {
      JoinNext(list, i);
      ghost var before := target.Bytes();
      assert Carries(bufs[i], list[i]);
      JoinOne(pool, target, bufs[i], list[i]);
      assert before + (list[i].data + DataOf(list[i + 1..])) == (before + list[i].data) + DataOf(list[i + 1..]);
      i := i + 1;
    }
    assert list[i..] == [];
    assert DataOf(list[i..]) == [] by { NoData(); }
  }

  lemma {:induction false} NoData()
    ensures DataOf([]) == []
  {
  }
}
