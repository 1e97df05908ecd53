/** Packet buffers of kernel/net/pktbuf.c: chains of 64-byte blocks taken from one pool.
    A block is a value that carries its identity; a chain is the list that holds it. */
module Pktbuf {
  import opened Chunks

  const BLK_SIZE := 64

  /** pktblk_t: `size` bytes of data starting at index `data` of the payload. */
  datatype RawBlock = RawBlock(id: nat, size: int, data: int, payload: seq<Byte>) {
    predicate Ok() {
      |payload| == BLK_SIZE && 0 <= data && 0 <= size && data + size <= BLK_SIZE
    }

    function View(): (r: seq<Byte>)
      requires Ok()
    {
      payload[data..data + size]
    }
  }

  type Block = b: RawBlock | b.Ok() witness RawBlock(0, 0, 0, seq(BLK_SIZE, i => 0))

  /** The chunks that a chain of blocks holds. */
  ghost function Views(bs: seq<Block>): (r: seq<seq<Byte>>)
    ensures |r| == |bs|
    ensures forall i :: 0 <= i < |bs| ==> r[i] == bs[i].View()
  {
    seq(|bs|, i requires 0 <= i < |bs| => bs[i].View())
  }

  /** The flat bytes that a chain of blocks holds. */
  ghost function Flat(bs: seq<Block>): (r: seq<Byte>) {
    Concat(Views(bs))
  }

  /** How often a block occurs in a chain. */
  ghost function Count(bs: seq<Block>, id: nat): (r: nat) {
    if bs == [] then 0 else (if bs[0].id == id then 1 else 0) + Count(bs[1..], id)
  }

  /** Two lists together hold the same blocks as two other lists together. */
  ghost predicate Same(a: seq<Block>, b: seq<Block>, c: seq<Block>, d: seq<Block>) {
    forall id :: Count(a, id) + Count(b, id) == Count(c, id) + Count(d, id)
  }

  ghost predicate Same1(a: seq<Block>, c: seq<Block>) {
    forall id :: Count(a, id) == Count(c, id)
  }

  lemma {:induction false} CountAppend(a: seq<Block>, b: seq<Block>, id: nat)
    ensures Count(a + b, id) == Count(a, id) + Count(b, id)
  {
    if a == [] {
      assert a + b == b;
    } else {
      CountAppend(a[1..], b, id);
      assert (a + b)[1..] == a[1..] + b;
    }
  }

  lemma {:induction false} BagAppend(a: seq<Block>, b: seq<Block>)
    ensures forall id :: Count(a + b, id) == Count(a, id) + Count(b, id)
  {
    forall id ensures Count(a + b, id) == Count(a, id) + Count(b, id) {
      CountAppend(a, b, id);
    }
  }

  lemma {:induction false} BagFirst(bs: seq<Block>)
    requires bs != []
    ensures forall id :: Count(bs, id) == (if bs[0].id == id then 1 else 0) + Count(bs[1..], id)
  {
  }

  lemma {:induction false} BagUpdate(bs: seq<Block>, k: nat, b: Block)
    requires k < |bs| && b.id == bs[k].id
    ensures forall id :: Count(bs[k := b], id) == Count(bs, id)
  {
    assert bs == bs[..k] + [bs[k]] + bs[k + 1..];
    assert bs[k := b] == bs[..k] + [b] + bs[k + 1..];
    BagAppend(bs[..k] + [bs[k]], bs[k + 1..]);
    BagAppend(bs[..k], [bs[k]]);
    BagAppend(bs[..k] + [b], bs[k + 1..]);
    BagAppend(bs[..k], [b]);
    assert forall id :: Count([b], id) == Count([bs[k]], id);
  }

  lemma {:induction false} FlatAppend(a: seq<Block>, b: seq<Block>)
    ensures Flat(a + b) == Flat(a) + Flat(b)
  {
    assert Views(a + b) == Views(a) + Views(b);
    ConcatAppend(Views(a), Views(b));
  }

  lemma {:induction false} FlatOne(b: Block)
    requires b.Ok()
    ensures Flat([b]) == b.View()
  {
    assert Views([b]) == [b.View()];
    ConcatOne(b.View());
  }

  lemma {:induction false} FlatFirst(bs: seq<Block>)
    requires bs != []
    ensures Flat(bs) == bs[0].View() + Flat(bs[1..])
  {
    assert Views(bs)[1..] == Views(bs[1..]);
  }

  lemma {:induction false} FlatLast(bs: seq<Block>)
    requires bs != []
    ensures Flat(bs) == Flat(bs[..|bs| - 1]) + bs[|bs| - 1].View()
  {
    assert Views(bs) == Views(bs[..|bs| - 1]) + [bs[|bs| - 1].View()];
    ConcatLast(Views(bs[..|bs| - 1]), bs[|bs| - 1].View());
  }

  /** Freshly allocated blocks: non-empty, with all slack at the front of the first one or at
      the tail of the last one. */
  ghost predicate Packed(bs: seq<Block>, addFront: bool) {
    forall i :: 0 <= i < |bs| ==>
      && 0 < bs[i].size && (if addFront then bs[i].data + bs[i].size == BLK_SIZE else bs[i].data == 0)
      && (bs[i].size < BLK_SIZE ==> i == if addFront then 0 else |bs| - 1)
  }

  ghost predicate NonEmpty(bs: seq<Block>) {
    forall i :: 0 <= i < |bs| ==> bs[i].size > 0
  }

  ghost predicate AllFull(bs: seq<Block>) {
    forall i :: 0 <= i < |bs| ==> bs[i].size == BLK_SIZE
  }

  /** The first block of a chain filled from the front. */
  lemma {:induction false} PackedFirst(bs: seq<Block>)
    requires Packed(bs, false) && bs != []
    ensures bs[0].data == 0 && bs[0].size == Min(BLK_SIZE, |Flat(bs)|)
  {
    FlatFirst(bs);
    if |bs| == 1 {
      FlatNil();
      assert bs[1..] == [];
    }
  }

  /** There is room for a header of `size` bytes: in the slack of the first block, or in blocks. */
  predicate HeaderFits(slack: nat, free: nat, size: nat, cont: bool) {
    size <= slack ||
    if cont then size <= BLK_SIZE && free > 0 else BlocksFor(size - slack) <= free
  }

  /** There is room to grow a chain of `total` bytes: in the slack of the last block, or in blocks. */
  predicate GrowFits(bs: seq<Block>, total: int, free: nat, toSize: nat) {
    var slack := if total == 0 || bs == [] then 0 else TailFree(bs);
    toSize - total - slack <= 0 || BlocksFor(toSize - total - slack) <= free
  }

  /** How many blocks pktblock_alloc_list needs. */
  function BlocksFor(size: nat): (r: nat)
    ensures r == 0 <==> size == 0
    ensures size > 0 ==> (r - 1) * BLK_SIZE < size <= r * BLK_SIZE
  {
    (size + BLK_SIZE - 1) / BLK_SIZE
  }

  /** pktbuf_t. `currIdx` is the position of curr_blk in the chain, the length of the chain
      standing for NULL; `blkOffset` is an index into that block's payload. */
  class PktBuf {
    var totalSize: int
    var blkList: seq<Block>
    var ref: int
    var pos: int
    var currIdx: int
    var blkOffset: int

    /** The chain is well formed and total_size is the number of bytes it holds. */
    ghost predicate Ok()
      reads this
    {
      totalSize == |Flat(blkList)|
    }

    ghost function Bytes(): (r: seq<Byte>)
      reads this
    {
      Flat(blkList)
    }

    constructor ()
      ensures blkList == [] && totalSize == 0 && ref == 0
    {
      blkList, totalSize, ref, pos, currIdx, blkOffset := [], 0, 0, 0, 0, 0;
    }
  }

  /** The static state of pktbuf.c: the pool of free blocks and the pool of free buffers. */
  class PktPool {
    var blockList: seq<Block>
    var pktbufList: seq<PktBuf>

    constructor ()
      ensures blockList == [] && pktbufList == []
    {
      blockList, pktbufList := [], [];
    }

    /** pktblock_alloc_list: a chain for `size` bytes, filled from the front of each block or,
        for a header, from its end. A failure gives every block back. */
    method AllocList(size: nat, addFront: bool) returns (ok: bool, chain: seq<Block>)
      modifies this`blockList
      ensures ok == (0 < size && BlocksFor(size) <= |old(blockList)|)
      ensures Same(blockList, chain, old(blockList), [])
      ensures |Flat(chain)| == if ok then size else 0
      ensures |chain| == (if ok then BlocksFor(size) else 0) && |blockList| + |chain| == |old(blockList)|
      ensures Packed(chain, addFront)
    {
      var left := size;
      chain := [];
      assert Flat(chain) == [];
      while left > 0
        invariant 0 <= left <= size
        invariant Same(blockList, chain, old(blockList), [])
        invariant |blockList| + |chain| == |old(blockList)|
        invariant if left > 0 then size - left == |chain| * BLK_SIZE else |chain| == BlocksFor(size)
        invariant |Flat(chain)| == size - left
        invariant Packed(chain, addFront) && (left > 0 ==> AllFull(chain))
      {
        if blockList == [] {
          FreeList(chain);
          return false, [];
        }
        var b := TakeFirst(Min(left, BLK_SIZE), addFront);
        AllocStep(chain, b, addFront);
        chain := if addFront then [b] + chain else chain + [b];
        left := left - b.size;
      }
      ok := size > 0;
    }

    /** pktblock_alloc and the placement of `n` bytes in the new block. */
    method TakeFirst(n: int, addFront: bool) returns (b: Block)
      requires blockList != [] && 0 < n <= BLK_SIZE
      modifies this`blockList
      ensures |blockList| == |old(blockList)| - 1
      ensures Same(blockList, [b], old(blockList), [])
      ensures b.Ok() && b.size == n && Packed([b], addFront)
    {
      b := blockList[0].(size := n, data := if addFront then BLK_SIZE - n else 0);
      BagFirst(blockList);
      blockList := blockList[1..];
    }

    /** pktblock_free_list. */
    method FreeList(chain: seq<Block>)
      modifies this`blockList
      ensures blockList == old(blockList) + chain
      ensures Same(blockList, [], old(blockList), chain)
    {
      var i := 0;
      while i < |chain|
        invariant 0 <= i <= |chain|
        invariant blockList == old(blockList) + chain[..i]
      {
        blockList := blockList + [chain[i]];
        i := i + 1;
      }
      assert chain[..|chain|] == chain;
      BagAppend(old(blockList), chain);
    }

    /** pktbuf_insert_blk_list behind the buffer's blocks. */
    method InsertLast(buf: PktBuf, chain: seq<Block>)
      modifies buf`blkList, buf`totalSize
      ensures buf.blkList == old(buf.blkList) + chain
      ensures buf.Bytes() == old(buf.Bytes()) + Flat(chain)
      ensures buf.totalSize == old(buf.totalSize) + |Flat(chain)| && buf.Ok() == old(buf.Ok())
      ensures Same(buf.blkList, [], old(buf.blkList), chain)
    {
      var i := 0;
      FlatNil();
      while i < |chain|
        invariant 0 <= i <= |chain|
        invariant buf.blkList == old(buf.blkList) + chain[..i]
        invariant buf.totalSize == old(buf.totalSize) + |Flat(chain[..i])|
      {
        FlatPrefix(chain, i);
        buf.blkList := buf.blkList + [chain[i]];
        buf.totalSize := buf.totalSize + chain[i].size;
        i := i + 1;
      }
      assert chain[..|chain|] == chain;
      Joined(old(buf.blkList), chain);
    }

    /** pktbuf_insert_blk_list in front of the buffer's blocks, one after the other. */
    method InsertFirst(buf: PktBuf, chain: seq<Block>)
      requires buf.Ok()
      modifies buf`blkList, buf`totalSize
      ensures buf.blkList == chain + old(buf.blkList)
      ensures buf.Ok() && buf.Bytes() == Flat(chain) + old(buf.Bytes())
      ensures Same(buf.blkList, [], old(buf.blkList), chain)
    {
      var i := 0;
      FlatNil();
      while i < |chain|
        invariant 0 <= i <= |chain|
        invariant buf.blkList == chain[..i] + old(buf.blkList)
        invariant buf.totalSize == old(buf.totalSize) + |Flat(chain[..i])|
      {
        FlatPrefix(chain, i);
        InsertAfterPrefix(chain, i, old(buf.blkList));
        buf.blkList := buf.blkList[..i] + [chain[i]] + buf.blkList[i..];
        buf.totalSize := buf.totalSize + chain[i].size;
        i := i + 1;
      }
      assert chain[..|chain|] == chain;
      Joined(chain, old(buf.blkList));
    }

    /** Uses `n` bytes of the slack in front of the first block. */
    method UseFrontSlack(buf: PktBuf, n: nat)
      requires buf.Ok() && buf.blkList != [] && n <= buf.blkList[0].data
      modifies buf`blkList, buf`totalSize
      ensures buf.Ok() && |buf.blkList| == |old(buf.blkList)|
      ensures |buf.Bytes()| == n + |old(buf.Bytes())| && buf.Bytes()[n..] == old(buf.Bytes())
      ensures Same1(buf.blkList, old(buf.blkList))
      ensures buf.blkList[0].size == n + old(buf.blkList[0].size) && buf.blkList[1..] == old(buf.blkList)[1..]
      ensures buf.blkList == old(buf.blkList)[0 := Lower(old(buf.blkList[0]), n)]
    {
      var b := buf.blkList[0];
      var b' := b.(size := b.size + n, data := b.data - n);
      assert b'.View() == b.payload[b.data - n..b.data] + b.View();
      FlatFirst(buf.blkList);
      BagUpdate(buf.blkList, 0, b');
      assert buf.blkList[0 := b'][1..] == buf.blkList[1..];
      buf.blkList := buf.blkList[0 := b'];
      buf.totalSize := buf.totalSize + n;
      FlatFirst(buf.blkList);
    }

    /** pktbuf_add_header: `size` bytes with unspecified contents in front of the data. When a
        non-contiguous request runs out of blocks the first block's slack stays in the packet. */
    method AddHeader(buf: PktBuf, size: nat, cont: bool) returns (err: NetErr)
      requires buf.Ok() && buf.blkList != []
      modifies this`blockList, buf`blkList, buf`totalSize
      ensures buf.Ok()
      ensures Same(blockList, buf.blkList, old(blockList), old(buf.blkList))
      ensures err == OK || err == NONE
      ensures err == OK <==> HeaderFits(old(buf.blkList[0].data), |old(blockList)|, size, cont)
      ensures var extra := if err == OK then size else if cont then 0 else old(buf.blkList[0].data);
              |buf.Bytes()| == extra + |old(buf.Bytes())| && buf.Bytes()[extra..] == old(buf.Bytes())
      ensures err == OK && cont ==> buf.blkList != [] && buf.blkList[0].size >= size
      ensures NonEmpty(old(buf.blkList)) ==> NonEmpty(buf.blkList)
      ensures var slack := old(buf.blkList[0].data);
              Raised(old(buf.blkList), buf.blkList, if size <= slack then size else if cont then 0 else slack)
    {
      hide Flat, Count;
      var resv := buf.blkList[0].data;
      if size <= resv {
        UseFrontSlack(buf, size);
        return OK;
      }
      var need := size;
      if cont {
        assert Raised(buf.blkList, buf.blkList, 0);
        if size > BLK_SIZE {
          return NONE;
        }
      } else {
        UseFrontSlack(buf, resv);
        need := size - resv;
      }
      err := PrependBlocks(buf, need);
    }

    /** Puts freshly allocated blocks for `need` bytes in front of the chain. */
    method PrependBlocks(buf: PktBuf, need: nat) returns (err: NetErr)
      requires buf.Ok() && need > 0
      modifies this`blockList, buf`blkList, buf`totalSize
      ensures buf.Ok()
      ensures Same(blockList, buf.blkList, old(blockList), old(buf.blkList))
      ensures err == if BlocksFor(need) <= |old(blockList)| then OK else NONE
      ensures if err == OK then |buf.Bytes()| == need + |old(buf.Bytes())| && buf.Bytes()[need..] == old(buf.Bytes())
              else buf.blkList == old(buf.blkList)
      ensures |buf.blkList| >= |old(buf.blkList)| &&
              buf.blkList[|buf.blkList| - |old(buf.blkList)|..] == old(buf.blkList)
      ensures err == OK && need <= BLK_SIZE ==> buf.blkList != [] && buf.blkList[0].size == need
      ensures NonEmpty(old(buf.blkList)) ==> NonEmpty(buf.blkList)
    {
      hide Flat, Count;
      var ok, chain := AllocList(need, true);
      if !ok {
        FlatNil();
        return NONE;
      }
      if need <= BLK_SIZE {
        FlatOne(chain[0]);
        assert chain == [chain[0]];
      }
      InsertFirst(buf, chain);
      assert (chain + old(buf.blkList))[|chain|..] == old(buf.blkList);
      return OK;
    }

    /** Gives the first block of the chain back to the pool. */
    method DropFirst(buf: PktBuf)
      requires buf.Ok() && buf.blkList != []
      modifies this`blockList, buf`blkList, buf`totalSize
      ensures buf.Ok()
      ensures Same(blockList, buf.blkList, old(blockList), old(buf.blkList))
      ensures buf.blkList == old(buf.blkList)[1..] && blockList == old(blockList) + [old(buf.blkList[0])]
      ensures var n := old(buf.blkList[0].size);
              n <= |old(buf.Bytes())| && buf.Bytes() == old(buf.Bytes())[n..]
    {
      var b := buf.blkList[0];
      FlatFirst(buf.blkList);
      BagFirst(buf.blkList);
      ChainGrows(blockList, b);
      buf.blkList := buf.blkList[1..];
      blockList := blockList + [b];
      buf.totalSize := buf.totalSize - b.size;
    }

    /** Cuts `n` bytes off the front of the first block, which keeps at least one. */
    method TrimFirst(buf: PktBuf, n: nat)
      requires buf.Ok() && buf.blkList != [] && n < buf.blkList[0].size
      modifies buf`blkList, buf`totalSize
      ensures buf.Ok() && Same1(buf.blkList, old(buf.blkList))
      ensures |buf.blkList| == |old(buf.blkList)| && buf.blkList[0].size == old(buf.blkList[0].size) - n
      ensures buf.blkList[1..] == old(buf.blkList)[1..]
      ensures buf.blkList == [PullRest(old(buf.blkList[0]), n)] + old(buf.blkList)[1..]
      ensures n <= |old(buf.Bytes())| && buf.Bytes() == old(buf.Bytes())[n..]
    {
      var b := buf.blkList[0];
      var b' := b.(data := b.data + n, size := b.size - n);
      assert b'.View() == b.View()[n..];
      FlatFirst(buf.blkList);
      BagUpdate(buf.blkList, 0, b');
      assert buf.blkList[0 := b'][1..] == buf.blkList[1..];
      buf.blkList := buf.blkList[0 := b'];
      buf.totalSize := buf.totalSize - n;
      FlatFirst(buf.blkList);
    }

    /** pktbuf_remove_header: drops the first `size` bytes. The cursor is left where it was. */
    method RemoveHeader(buf: PktBuf, size: nat) returns (err: NetErr)
      requires buf.Ok() && size <= buf.totalSize
      modifies this`blockList, buf`blkList, buf`totalSize
      ensures buf.Ok() && err == OK
      ensures Same(blockList, buf.blkList, old(blockList), old(buf.blkList))
      ensures buf.Bytes() == old(buf.Bytes())[size..]
      ensures old(buf.blkList) != [] && size < old(buf.blkList[0].size) ==>
                buf.blkList != [] && buf.blkList[0].size == old(buf.blkList[0].size) - size
      ensures NonEmpty(old(buf.blkList)) ==> NonEmpty(buf.blkList)
      ensures FrontCut(old(buf.blkList), buf.blkList, size, size)
    {
      hide Flat, Count, FrontCut;
      var left := size;
      ghost var bytes, bs, free := buf.Bytes(), buf.blkList, blockList;
      ghost var k := 0;
      NothingCut(bs, size);
      while left > 0
        invariant 0 <= left <= size <= |bytes| && buf.Ok()
        invariant Same(blockList, buf.blkList, free, bs)
        invariant buf.Bytes() == bytes[size - left..]
        invariant buf.blkList == bs || (bs != [] && bs[0].size <= size - left)
        invariant k <= |bs| && buf.blkList == bs[k..] && FrontCut(bs, bs[k..], size - left, size)
        invariant NonEmpty(bs) ==> NonEmpty(buf.blkList)
        decreases left, |buf.blkList|
      {
        NonEmptyChain(buf.blkList);
        var n := buf.blkList[0].size;
        DropDrop(bytes, size - left, Min(left, n));
        CutMore(bs, k, size - left, size);
        if left < n {
          TrimFirst(buf, left);
          return OK;
        }
        DropFirst(buf);
        k := k + 1;
        left := left - n;
      }
      return OK;
    }

    /** Extends the last block by `n` bytes of its tail slack. */
    method UseTailSlack(buf: PktBuf, n: nat)
      requires buf.Ok() && buf.blkList != [] && n <= TailFree(buf.blkList)
      modifies buf`blkList, buf`totalSize
      ensures buf.Ok() && Same1(buf.blkList, old(buf.blkList))
      ensures |buf.Bytes()| == |old(buf.Bytes())| + n && buf.Bytes()[..|old(buf.Bytes())|] == old(buf.Bytes())
      ensures NonEmpty(old(buf.blkList)) ==> NonEmpty(buf.blkList)
      ensures var k := |old(buf.blkList)| - 1; buf.blkList == old(buf.blkList)[k := Higher(old(buf.blkList)[k], n)]
    {
      var k := |buf.blkList| - 1;
      var b := buf.blkList[k];
      var b' := b.(size := b.size + n);
      assert b'.View() == b.View() + b.payload[b.data + b.size..b.data + b.size + n];
      FlatLast(buf.blkList);
      BagUpdate(buf.blkList, k, b');
      assert buf.blkList[k := b'][..k] == buf.blkList[..k];
      buf.blkList := buf.blkList[k := b'];
      buf.totalSize := buf.totalSize + n;
      FlatLast(buf.blkList);
    }

    /** The growing branches of pktbuf_resize. */
    method Grow(buf: PktBuf, toSize: nat) returns (err: NetErr)
      requires buf.Ok() && toSize > buf.totalSize
      modifies this`blockList, buf`blkList, buf`totalSize
      ensures buf.Ok()
      ensures Same(blockList, buf.blkList, old(blockList), old(buf.blkList))
      ensures err == if GrowFits(old(buf.blkList), old(buf.totalSize), |old(blockList)|, toSize) then OK
                     else if old(buf.totalSize) == 0 then MEM else NONE
      ensures err != OK ==> buf.blkList == old(buf.blkList)
      ensures err == OK ==> |buf.Bytes()| == toSize && buf.Bytes()[..|old(buf.Bytes())|] == old(buf.Bytes())
      ensures NonEmpty(old(buf.blkList)) ==> NonEmpty(buf.blkList)
      ensures Extended(old(buf.blkList), buf.blkList)
    {
      hide Flat, Count;
      var slack := 0;
      if buf.totalSize > 0 {
        NonEmptyChain(buf.blkList);
        slack := TailFree(buf.blkList);
      }
      var inc := toSize - buf.totalSize;
      if slack >= inc {
        UseTailSlack(buf, inc);
        return OK;
      }
      var ok, chain := AllocList(inc - slack, false);
      if !ok {
        FlatNil();
        return if buf.totalSize == 0 then MEM else NONE;
      }
      if slack > 0 {
        UseTailSlack(buf, slack);
      }
      InsertLast(buf, chain);
      return OK;
    }

    /** The shrinking branch of pktbuf_resize: finds the block that holds the last byte kept,
        frees the blocks behind it and cuts its tail. */
    method Shrink(buf: PktBuf, toSize: nat)
      requires buf.Ok() && toSize < buf.totalSize
      modifies this`blockList, buf`blkList, buf`totalSize
      ensures buf.Ok()
      ensures Same(blockList, buf.blkList, old(blockList), old(buf.blkList))
      ensures buf.Bytes() == old(buf.Bytes())[..toSize]
      ensures NonEmpty(old(buf.blkList)) ==> (NonEmpty(buf.blkList) <==> toSize > 0)
      ensures BackCut(old(buf.blkList), buf.blkList, toSize)
    {
      var t, total := FindTail(buf.blkList, toSize);
      CutTail(buf.blkList, t, toSize);
      var list, freed := FreeBehind(buf.blkList, t);
      var tail := list[t];
      tail := tail.(size := tail.size - (buf.totalSize - freed - toSize));
      FlatPrefix(buf.blkList, t);
      assert list[..t] == buf.blkList[..t];
      buf.blkList := list[..t] + [tail];
      buf.totalSize := toSize;
    }

    /** Unlinks and frees every block behind position `t`, counting the bytes they held. */
    method FreeBehind(bs: seq<Block>, t: nat) returns (list: seq<Block>, freed: int)
      requires t < |bs|
      modifies this`blockList
      ensures list == bs[..t + 1] && freed + |Flat(list)| == |Flat(bs)| && blockList == old(blockList) + bs[t + 1..]
      ensures Same(blockList, list, old(blockList), bs)
    {
      list, freed := bs, 0;
      while |list| > t + 1
        invariant t + 1 <= |list|
        invariant list[..t + 1] == bs[..t + 1]
        invariant Same(blockList, list, old(blockList), bs)
        invariant freed + |Flat(list)| == |Flat(bs)|
        invariant blockList + list[t + 1..] == old(blockList) + bs[t + 1..]
      {
        var b := list[t + 1];
        assert list[t + 1..] == [b] + list[t + 2..];
        RemoveAt(list, t + 1);
        ChainGrows(blockList, b);
        blockList := blockList + [b];
        freed := freed + b.size;
        list := list[..t + 1] + list[t + 2..];
      }
    }

    /** pktbuf_resize: keeps the common prefix. */
    method Resize(buf: PktBuf, toSize: nat) returns (err: NetErr)
      requires buf.Ok()
      modifies this`blockList, buf`blkList, buf`totalSize
      ensures buf.Ok()
      ensures Same(blockList, buf.blkList, old(blockList), old(buf.blkList))
      ensures err == if toSize <= old(buf.totalSize) ||
                        GrowFits(old(buf.blkList), old(buf.totalSize), |old(blockList)|, toSize) then OK
                     else if old(buf.totalSize) == 0 then MEM else NONE
      ensures err != OK ==> buf.blkList == old(buf.blkList)
      ensures if toSize < old(buf.totalSize) then BackCut(old(buf.blkList), buf.blkList, toSize)
              else Extended(old(buf.blkList), buf.blkList)
      ensures err == OK ==> var n := Min(toSize, |old(buf.Bytes())|);
                            |buf.Bytes()| == toSize && buf.Bytes()[..n] == old(buf.Bytes())[..n]
      ensures NonEmpty(old(buf.blkList)) && (toSize > 0 || err != OK) ==> NonEmpty(buf.blkList)
    {
      if toSize == buf.totalSize {
        return OK;
      }
      if toSize > buf.totalSize {
        err := Grow(buf, toSize);
      } else {
        Shrink(buf, toSize);
        err := OK;
      }
    }

    /** pktbuf_alloc. */
    method Alloc(size: nat) returns (res: Option<PktBuf>)
      modifies this, if pktbufList == [] then {} else {pktbufList[0]}
      ensures res.Some? <==> old(pktbufList) != [] && BlocksFor(size) <= |old(blockList)|
      ensures res.None? ==> Same1(blockList, old(blockList)) && |blockList| == |old(blockList)|
      ensures res.None? ==>
                pktbufList == if old(pktbufList) == [] then [] else old(pktbufList)[1..] + [old(pktbufList[0])]
      ensures res.Some? ==> var buf := res.value;
                            && old(pktbufList) == [buf] + pktbufList
                            && buf.Ok() && buf.ref == 1 && |buf.Bytes()| == size
                            && Packed(buf.blkList, false) && |buf.blkList| == BlocksFor(size)
                            && Same(blockList, buf.blkList, old(blockList), [])
                            && |blockList| + |buf.blkList| == |old(blockList)|
                            && buf.pos == 0 && buf.currIdx == 0 && buf.blkOffset == 0
    {
      if pktbufList == [] {
        return None;
      }
      var buf := pktbufList[0];
      pktbufList := pktbufList[1..];
      var ok := InitBuf(buf, size);
      if !ok {
        pktbufList := pktbufList + [buf];
        return None;
      }
      return Some(buf);
    }

    /** The fields and blocks of a buffer just taken from the pool. */
    method InitBuf(buf: PktBuf, size: nat) returns (ok: bool)
      modifies this`blockList, buf
      ensures ok == (BlocksFor(size) <= |old(blockList)|)
      ensures !ok ==> Same1(blockList, old(blockList)) && |blockList| == |old(blockList)|
      ensures ok ==> buf.Ok() && buf.ref == 1 && |buf.Bytes()| == size
      ensures ok ==> Packed(buf.blkList, false) && |buf.blkList| == BlocksFor(size)
      ensures ok ==> Same(blockList, buf.blkList, old(blockList), []) && |blockList| + |buf.blkList| == |old(blockList)|
      ensures ok ==> buf.pos == 0 && buf.currIdx == 0 && buf.blkOffset == 0
    {
      buf.ref, buf.totalSize, buf.blkList := 1, 0, [];
      FlatNil();
      if size > 0 {
        var chain;
        ok, chain := AllocList(size, false);
        if !ok {
          return;
        }
        InsertLast(buf, chain);
        assert [] + chain == chain;
      }
      ok := true;
      ResetAcc(buf);
    }

    /** pktbuf_free: the last reference gives the blocks and the buffer back. */
    method Free(buf: PktBuf)
      modifies this`blockList, this`pktbufList, buf`ref
      ensures buf.ref == old(buf.ref) - 1
      ensures buf.ref == 0 ==> blockList == old(blockList) + buf.blkList && pktbufList == old(pktbufList) + [buf]
      ensures buf.ref == 0 ==> Same(blockList, [], old(blockList), buf.blkList)
      ensures buf.ref != 0 ==> blockList == old(blockList) && pktbufList == old(pktbufList)
    {
      buf.ref := buf.ref - 1;
      if buf.ref == 0 {
        FreeList(buf.blkList);
        pktbufList := pktbufList + [buf];
      }
    }

    /** pktbuf_join: moves every block of `src` behind `dest` and drops one reference to `src`.
        A source that is still referenced keeps its total_size although its chain is empty. */
    method Join(dest: PktBuf, src: PktBuf) returns (err: NetErr)
      requires dest != src
      modifies this`blockList, this`pktbufList, dest`blkList, dest`totalSize, src`blkList, src`ref
      ensures err == OK && blockList == old(blockList)
      ensures dest.Ok() == old(dest.Ok()) && dest.Bytes() == old(dest.Bytes()) + old(src.Bytes())
      ensures dest.blkList == old(dest.blkList) + old(src.blkList) && src.blkList == []
      ensures src.ref == old(src.ref) - 1
      ensures pktbufList == if src.ref == 0 then old(pktbufList) + [src] else old(pktbufList)
      ensures src.Ok() <==> old(src.totalSize) == 0
    {
      ghost var all := dest.blkList + src.blkList;
      while src.blkList != []
        invariant dest.Ok() == old(dest.Ok())
        invariant dest.blkList + src.blkList == all
        decreases |src.blkList|
        modifies dest`blkList, dest`totalSize, src`blkList
      {
        var first := src.blkList[0];
        src.blkList := src.blkList[1..];
        InsertLast(dest, [first]);
      }
      assert dest.blkList == all;
      Joined(old(dest.blkList), old(src.blkList));
      FlatNil();
      Free(src);
      assert blockList == old(blockList);
      return OK;
    }

    /** pktbuf_set_cont: makes the first `size` bytes contiguous without changing any byte. */
    method SetCont(buf: PktBuf, size: nat) returns (err: NetErr)
      requires buf.Ok()
      requires size <= buf.totalSize && size <= BLK_SIZE ==> buf.blkList != []
      modifies this`blockList, buf`blkList
      ensures buf.Ok() && buf.Bytes() == old(buf.Bytes())
      ensures Same(blockList, buf.blkList, old(blockList), old(buf.blkList))
      ensures err == if size <= buf.totalSize && size <= BLK_SIZE then OK else SIZE
      ensures err == OK ==> buf.blkList != [] && buf.blkList[0].size >= size
      ensures NonEmpty(old(buf.blkList)) ==> NonEmpty(buf.blkList)
      ensures err != OK || size <= old(buf.blkList[0].size) ==> buf.blkList == old(buf.blkList)
      ensures err == OK && size > old(buf.blkList[0].size) ==> Pulled(old(buf.blkList), buf.blkList, size)
    {
      hide Flat, Count, FrontCut;
      if size > buf.totalSize || size > BLK_SIZE {
        return SIZE;
      }
      if size <= buf.blkList[0].size {
        return OK;
      }
      var first := SlideToFront(buf.blkList[0]);
      ReplaceFirst(buf.blkList, first);
      var list := Gather([first] + buf.blkList[1..], size);
      assert ([first] + buf.blkList[1..])[1..] == buf.blkList[1..];
      buf.blkList := list;
      return OK;
    }

    /** Moves bytes of the following blocks into the first one until it holds `size` bytes. */
    method Gather(bs: seq<Block>, size: nat) returns (list: seq<Block>)
      requires bs != [] && bs[0].data == 0 && bs[0].size <= size <= BLK_SIZE && size <= |Flat(bs)|
      modifies this`blockList
      ensures list != [] && list[0].size == size && Flat(list) == Flat(bs)
      ensures Same(blockList, list, old(blockList), bs)
      ensures NonEmpty(bs) ==> NonEmpty(list)
      ensures Pulled(bs, list, size)
    {
      hide FrontCut, Flat, Same, Same1;
      list := bs;
      assert Same(blockList, list, blockList, bs) by { SameRefl(blockList, bs); }
      var remain := size - bs[0].size;
      ghost var n0, rest, k := remain, bs[1..], 0;
      NothingCut(rest, n0);
      while remain > 0 && |list| > 1
        invariant list != [] && remain >= 0 && list[0].data == 0 && list[0].size + remain == size
        invariant Flat(list) == Flat(bs)
        invariant Same(blockList, list, old(blockList), bs)
        invariant NonEmpty(bs) ==> NonEmpty(list)
        invariant list[0].id == bs[0].id && FrontCut(rest, list[1..], n0 - remain, n0)
        invariant remain > 0 ==> k <= |rest| && list[1..] == rest[k..]
        decreases remain, |list|
      {
        var n := Min(list[1].size, remain);
        CutMore(rest, k, n0 - remain, n0);
        assert list[1] == rest[k] && list[2..] == rest[k + 1..] by { assert list[1..][1..] == list[2..]; }
        PullStep(list, n);
        PullSame(blockList, list, old(blockList), bs, n);
        var f, c := PullFirst(list[0], list[1], n), PullRest(list[1], n);
        if c.size == 0 {
          blockList := blockList + [c];
          list := [f] + list[2..];
          k := k + 1;
          assert list[1..] == rest[k..];
        } else {
          list := [f, c] + list[2..];
          assert list[1..] == [PullRest(rest[k], n)] + rest[k + 1..];
        }
        remain := remain - n;
      }
      if |list| == 1 {
        FlatOne(list[0]);
        assert list == [list[0]];
      }
    }
  }

  // ------------------------------------------------------------------ what becomes of the blocks

  /** A block with `n` bytes of its front slack, or of its tail slack, in use. */
  function Lower(b: Block, n: nat): (r: Block)
    requires n <= b.data
  {
    b.(size := b.size + n, data := b.data - n)
  }

  function Higher(b: Block, n: nat): (r: Block)
    requires n <= BLK_SIZE - b.data - b.size
  {
    b.(size := b.size + n)
  }

  /** New blocks in front of a chain whose first block uses `n` bytes of its front slack. */
  ghost predicate Raised(a: seq<Block>, b: seq<Block>, n: nat) {
    a != [] && n <= a[0].data && |a| <= |b| && b[|b| - |a|..] == a[0 := Lower(a[0], n)]
  }

  /** New blocks behind a chain whose last block may use tail slack. */
  ghost predicate Extended(a: seq<Block>, b: seq<Block>) {
    && |a| <= |b|
    && (a != [] ==>
          var k := |a| - 1;
          && b[..k] == a[..k] && b[k].id == a[k].id && b[k].data == a[k].data && b[k].size >= a[k].size)
  }

  /** The first `n` bytes of a chain are gone: whole blocks, and part of the next one. Every block
      that is gone began before byte `lim`. */
  ghost predicate FrontCut(a: seq<Block>, b: seq<Block>, n: nat, lim: nat) {
    && |b| <= |a|
    && var k := |a| - |b|;
       && |Flat(a[..k])| <= n
       && (forall i :: 0 <= i < k ==> |Flat(a[..i])| < lim)
       && (if n == |Flat(a[..k])| then b == a[k..]
           else k < |a| && n - |Flat(a[..k])| < a[k].size && b == [PullRest(a[k], n - |Flat(a[..k])|)] + a[k + 1..])
  }

  /** Everything behind byte `n` is gone: whole blocks, and the end of the last one kept. */
  ghost predicate BackCut(a: seq<Block>, b: seq<Block>, n: nat) {
    && 0 < |b| <= |a|
    && var t := |b| - 1;
       && |Flat(a[..t])| <= n <= |Flat(a[..t])| + a[t].size && (t > 0 ==> |Flat(a[..t])| < n)
       && b == a[..t] + [a[t].(size := n - |Flat(a[..t])|)]
  }

  /** The first block slid to the front of its payload and filled up to `size` from the others. */
  ghost predicate Pulled(a: seq<Block>, b: seq<Block>, size: nat) {
    && a != [] && b != [] && a[0].size <= size
    && b[0].id == a[0].id && b[0].data == 0 && b[0].size == size
    && FrontCut(a[1..], b[1..], size - a[0].size, size - a[0].size)
  }

  lemma {:induction false} NothingCut(a: seq<Block>, lim: nat)
    ensures FrontCut(a, a, 0, lim) && a[0..] == a
  {
    assert a[..0] == [];
    FlatNil();
  }

  /** One more block is cut off, or a part of it. */
  lemma {:induction false} CutMore(a: seq<Block>, k: nat, n: nat, lim: nat)
    requires k < |a| && FrontCut(a, a[k..], n, lim) && n < lim
    ensures FrontCut(a, a[k + 1..], n + a[k].size, lim) && a[k..][1..] == a[k + 1..] && a[k..][0] == a[k]
    ensures forall s: nat :: 0 < s < a[k].size ==> FrontCut(a, [PullRest(a[k], s)] + a[k + 1..], n + s, lim)
  {
    hide Flat;
    FlatPrefix(a, k);
    WholeCut(a, k, n, lim);
  }

  lemma {:induction false} WholeCut(a: seq<Block>, k: nat, n: nat, lim: nat)
    requires k < |a| && FrontCut(a, a[k..], n, lim)
    ensures n == |Flat(a[..k])|
  {
    hide Flat;
  }

  lemma {:induction false} FlatNil()
    ensures Flat([]) == []
  {
    assert Views([]) == [];
  }

  lemma {:induction false} NonEmptyChain(bs: seq<Block>)
    requires |Flat(bs)| > 0
    ensures bs != []
  {
    FlatNil();
  }

  /** curr_blk_tail_free of the last block. */
  function TailFree(bs: seq<Block>): (r: int)
    requires bs != []
  {
    var b := bs[|bs| - 1];
    BLK_SIZE - b.data - b.size
  }

  /** The first block at which the running total reaches `toSize`. */
  method FindTail(bs: seq<Block>, toSize: nat) returns (t: nat, total: nat)
    requires toSize < |Flat(bs)|
    ensures t < |bs| && total == |Flat(bs[..t + 1])|
    ensures |Flat(bs[..t])| <= toSize <= total
    ensures t > 0 ==> |Flat(bs[..t])| < toSize
  {
    FlatNil();
    NonEmptyChain(bs);
    t := 0;
    FlatPrefix(bs, 0);
    total := bs[0].size;
    while total < toSize
      invariant t < |bs| && total == |Flat(bs[..t + 1])| && |Flat(bs[..t])| <= toSize
      invariant t > 0 ==> |Flat(bs[..t])| < toSize
      decreases |bs| - t
    {
      assert bs[..|bs|] == bs;
      FlatPrefix(bs, t + 1);
      t := t + 1;
      total := total + bs[t].size;
    }
  }

  lemma {:induction false} RemoveAt(bs: seq<Block>, k: nat)
    requires k < |bs|
    ensures var r := bs[..k] + bs[k + 1..];
            |Flat(r)| + bs[k].size == |Flat(bs)| && Same(r, [bs[k]], bs, [])
  {
    assert bs == bs[..k + 1] + bs[k + 1..];
    assert bs[..k + 1] == bs[..k] + [bs[k]];
    Joined(bs[..k + 1], bs[k + 1..]);
    Joined(bs[..k], bs[k + 1..]);
    ChainGrows(bs[..k], bs[k]);
  }

  /** Cutting block `t` so that `toSize` bytes remain up to it keeps exactly those bytes. */
  lemma {:induction false} CutTail(bs: seq<Block>, t: nat, toSize: nat)
    requires t < |bs|
    requires |Flat(bs[..t])| <= toSize <= |Flat(bs[..t + 1])|
    ensures toSize <= |Flat(bs)|
    ensures var cut := toSize - |Flat(bs[..t])|;
            var r := bs[..t] + [bs[t].(size := cut)];
            cut <= bs[t].size && Flat(r) == Flat(bs)[..toSize] && Same1(r, bs[..t + 1])
  {
    FlatPrefix(bs, t);
    var cut := toSize - |Flat(bs[..t])|;
    var b: Block := bs[t].(size := cut);
    TakeOfSlice(bs[t].payload, bs[t].data, bs[t].size, cut);
    ChainGrows(bs[..t], b);
    ChainGrows(bs[..t], bs[t]);
    assert bs[..t + 1] == bs[..t] + [bs[t]];
    CutFlat(bs, t, cut);
  }

  lemma {:induction false} CutFlat(bs: seq<Block>, t: nat, cut: nat)
    requires t < |bs| && cut <= bs[t].size
    ensures |Flat(bs[..t])| + cut <= |Flat(bs)|
    ensures Flat(bs)[..|Flat(bs[..t])| + cut] == Flat(bs[..t]) + bs[t].View()[..cut]
  {
    assert bs == bs[..t + 1] + bs[t + 1..];
    FlatAppend(bs[..t + 1], bs[t + 1..]);
    FlatPrefix(bs, t);
    PrefixCut(Flat(bs[..t]), bs[t].View(), Flat(bs[t + 1..]), cut);
  }

  lemma {:induction false} PrefixCut(a: seq<Byte>, c: seq<Byte>, b: seq<Byte>, cut: nat)
    requires cut <= |c|
    ensures (a + c + b)[..|a| + cut] == a + c[..cut]
  {
  }

  /** The byte loop of pktbuf_set_cont that moves a block's data to the front of its payload;
      source and destination may overlap. */
  method SlideToFront(b: Block) returns (r: Block)
    ensures r.id == b.id && r.size == b.size && r.data == 0 && r.View() == b.View()
  {
    var payload := b.payload;
    var i := 0;
    while i < b.size
      invariant 0 <= i <= b.size && |payload| == BLK_SIZE
      invariant forall k :: 0 <= k < i ==> payload[k] == b.View()[k]
      invariant forall k :: b.data + i <= k < BLK_SIZE ==> payload[k] == b.payload[k]
    {
      payload := payload[i := payload[b.data + i]];
      i := i + 1;
    }
    r := b.(data := 0, payload := payload);
    assert r.View() == b.View();
  }

  /** The first block after `n` bytes of the next one were copied behind its data. */
  function PullFirst(f: Block, c: Block, n: nat): (r: Block)
    requires f.data == 0 && f.size + n <= BLK_SIZE && n <= c.size
    ensures r.data == 0 && r.size == f.size + n && r.id == f.id
    ensures r.View() == f.View() + c.View()[..n]
  {
    var p := Splice(f.payload, f.size, c.View()[..n]);
    assert p[..f.size + n] == f.payload[..f.size] + c.View()[..n];
    f.(size := f.size + n, payload := p)
  }

  function PullRest(c: Block, n: nat): (r: Block)
    requires n <= c.size
    ensures r.id == c.id && r.size == c.size - n && r.View() == c.View()[n..]
  {
    c.(data := c.data + n, size := c.size - n)
  }

  lemma {:induction false} ReplaceFirst(bs: seq<Block>, b: Block)
    requires bs != [] && b.id == bs[0].id && b.View() == bs[0].View()
    ensures Flat([b] + bs[1..]) == Flat(bs) && Same1([b] + bs[1..], bs)
  {
    FlatFirst(bs);
    FlatFirst([b] + bs[1..]);
    BagFirst(bs);
    BagFirst([b] + bs[1..]);
    assert ([b] + bs[1..])[1..] == bs[1..];
  }

  lemma {:induction false} PullStep(list: seq<Block>, n: nat)
    requires |list| >= 2 && list[0].data == 0 && n <= list[1].size && list[0].size + n <= BLK_SIZE
    ensures var f, c := PullFirst(list[0], list[1], n), PullRest(list[1], n);
            && Flat([f, c] + list[2..]) == Flat(list)
            && (c.size == 0 ==> Flat([f] + list[2..]) == Flat(list))
  {
    var f, c, rest := PullFirst(list[0], list[1], n), PullRest(list[1], n), list[2..];
    FlatTwo(list);
    FlatTwo([f, c] + rest);
    FlatFirst([f] + rest);
    assert ([f, c] + rest)[2..] == rest;
    assert ([f] + rest)[1..] == rest;
    MoveBoundary(list[0].View(), list[1].View(), Flat(rest), n);
  }

  lemma {:induction false} MoveBoundary(a: seq<Byte>, b: seq<Byte>, rest: seq<Byte>, n: nat)
    requires n <= |b|
    ensures (a + b[..n]) + (b[n..] + rest) == a + (b + rest)
    ensures n == |b| ==> (a + b[..n]) + rest == a + (b + rest)
  {
  }

  lemma {:induction false} PullCount(list: seq<Block>, n: nat)
    requires |list| >= 2 && list[0].data == 0 && n <= list[1].size && list[0].size + n <= BLK_SIZE
    ensures var f, c := PullFirst(list[0], list[1], n), PullRest(list[1], n);
            Same1([f, c] + list[2..], list) && Same([f] + list[2..], [c], list, [])
  {
    var f, c, rest := PullFirst(list[0], list[1], n), PullRest(list[1], n), list[2..];
    FlatTwo(list);
    FlatTwo([f, c] + rest);
    assert ([f, c] + rest)[2..] == rest;
    assert ([f] + rest)[1..] == rest;
    BagFirst([f] + rest);
    BagFirst([c]);
  }

  lemma {:induction false} SameRefl(free: seq<Block>, bs: seq<Block>)
    ensures Same(free, bs, free, bs)
  {
  }

  lemma {:induction false} PullSame(free': seq<Block>, list: seq<Block>, free: seq<Block>, bs: seq<Block>, n: nat)
    requires |list| >= 2 && list[0].data == 0 && n <= list[1].size && list[0].size + n <= BLK_SIZE
    requires Same(free', list, free, bs)
    ensures var f, c := PullFirst(list[0], list[1], n), PullRest(list[1], n);
            Same(free', [f, c] + list[2..], free, bs) && Same(free' + [c], [f] + list[2..], free, bs)
  {
    PullCount(list, n);
    ChainGrows(free', PullRest(list[1], n));
  }

  lemma {:induction false} FlatTwo(bs: seq<Block>)
    requires |bs| >= 2
    ensures Flat(bs) == bs[0].View() + (bs[1].View() + Flat(bs[2..]))
    ensures forall id :: Count(bs, id) ==
              (if bs[0].id == id then 1 else 0) + (if bs[1].id == id then 1 else 0) + Count(bs[2..], id)
  {
    FlatFirst(bs);
    FlatFirst(bs[1..]);
    assert bs[1..][1..] == bs[2..];
  }

  /** pktbuf_reset_acc: the cursor goes to the first byte. */
  method ResetAcc(buf: PktBuf)
    modifies buf`pos, buf`currIdx, buf`blkOffset
    ensures buf.pos == 0 && buf.currIdx == 0
    ensures buf.blkOffset == if buf.blkList == [] then 0 else buf.blkList[0].data
  {
    buf.pos, buf.currIdx := 0, 0;
    buf.blkOffset := if buf.blkList == [] then 0 else buf.blkList[0].data;
  }

  lemma {:induction false} FlatPrefix(bs: seq<Block>, i: nat)
    requires i < |bs|
    ensures Flat(bs[..i + 1]) == Flat(bs[..i]) + bs[i].View()
  {
    assert bs[..i + 1] == bs[..i] + [bs[i]];
    ChainGrows(bs[..i], bs[i]);
  }

  lemma {:induction false} InsertAfterPrefix(chain: seq<Block>, i: nat, rest: seq<Block>)
    requires i < |chain|
    ensures var list := chain[..i] + rest; list[..i] + [chain[i]] + list[i..] == chain[..i + 1] + rest
  {
  }

  lemma {:induction false} Joined(a: seq<Block>, b: seq<Block>)
    ensures Flat(a + b) == Flat(a) + Flat(b) && Same(a + b, [], a, b)
  {
    FlatAppend(a, b);
    BagAppend(a, b);
  }

  lemma {:induction false} ChainGrows(chain: seq<Block>, b: Block)
    requires b.Ok()
    ensures Flat([b] + chain) == b.View() + Flat(chain)
    ensures Flat(chain + [b]) == Flat(chain) + b.View()
    ensures Same([b] + chain, [], chain, [b]) && Same(chain + [b], [], chain, [b])
  {
    FlatOne(b);
    FlatAppend([b], chain);
    FlatAppend(chain, [b]);
    BagAppend([b], chain);
    BagAppend(chain, [b]);
  }

  lemma {:induction false} AllocStep(chain: seq<Block>, b: Block, addFront: bool)
    requires Packed(chain, addFront) && AllFull(chain) && b.Ok() && Packed([b], addFront)
    ensures var c := if addFront then [b] + chain else chain + [b];
            Packed(c, addFront) && |Flat(c)| == |Flat(chain)| + b.size && Same(c, [], chain, [b])
  {
    ChainGrows(chain, b);
    assert [b][0] == b;
  }
}
