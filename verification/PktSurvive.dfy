/** When the cursor of a packet buffer survives an operation of kernel/net/pktbuf.c that changes
    the chain. Such an operation leaves pos, curr_blk and blk_offset as they are, so curr_blk
    still names the block that it named before, wherever that block now stands. */
module PktSurvive {
  import opened Chunks
  import opened Pktbuf
  import opened PktCursor

  /** The block that curr_blk points to, None for NULL. */
  ghost function Cur(bs: seq<Block>, idx: int): (r: Option<nat>) {
    if 0 <= idx < |bs| then Some(bs[idx].id) else None
  }

  /** In chain `bs`, payload index `off` of block `cur` is flat position `pos`. */
  ghost predicate Right(bs: seq<Block>, cur: Option<nat>, off: int, pos: int) {
    match cur
    case None => pos == |Flat(bs)|
    case Some(id) => exists k :: 0 <= k < |bs| && bs[k].id == id && At(bs, k, off, pos)
  }

  /** No block stands twice in the free list and the chain together. */
  ghost predicate Single(free: seq<Block>, bs: seq<Block>) {
    forall id: nat :: Count(free, id) + Count(bs, id) <= 1
  }

  ghost predicate Distinct(bs: seq<Block>) {
    forall i, j :: 0 <= i < j < |bs| ==> bs[i].id != bs[j].id
  }

  lemma {:induction false} CountAt(bs: seq<Block>, k: nat)
    requires k < |bs|
    ensures Count(bs, bs[k].id) == Count(bs[..k], bs[k].id) + 1 + Count(bs[k + 1..], bs[k].id)
  {
    assert bs == bs[..k] + bs[k..];
    CountAppend(bs[..k], bs[k..], bs[k].id);
    assert bs[k..][1..] == bs[k + 1..];
  }

  lemma {:induction false} SingleDistinct(free: seq<Block>, bs: seq<Block>)
    requires Single(free, bs)
    ensures Distinct(bs)
  {
    forall i, j | 0 <= i < j < |bs| ensures bs[i].id != bs[j].id {
      CountAt(bs, j);
      CountAt(bs[..j], i);
    }
  }

  lemma {:induction false} SingleKept(free: seq<Block>, bs: seq<Block>, free': seq<Block>, bs': seq<Block>)
    requires Single(free, bs) && Same(free', bs', free, bs)
    ensures Single(free', bs')
  {
  }

  lemma {:induction false} RightAt(bs: seq<Block>, k: nat, off: int, pos: int)
    requires Distinct(bs) && k < |bs|
    ensures Right(bs, Some(bs[k].id), off, pos) <==> At(bs, k, off, pos)
  {
    hide At;
  }

  lemma {:induction false} RightGone(bs: seq<Block>, id: nat, off: int, pos: int)
    requires forall k :: 0 <= k < |bs| ==> bs[k].id != id
    ensures !Right(bs, Some(id), off, pos)
  {
  }

  lemma {:induction false} FlatSplit(bs: seq<Block>, k: nat)
    requires k <= |bs|
    ensures |Flat(bs)| == |Flat(bs[..k])| + |Flat(bs[k..])|
  {
    assert bs == bs[..k] + bs[k..];
    FlatAppend(bs[..k], bs[k..]);
  }

  /** The bytes before block `i` and the bytes before block `j`. */
  lemma {:induction false} PrefixGrows(bs: seq<Block>, i: nat, j: nat)
    requires i <= j <= |bs|
    ensures |Flat(bs[..j])| == |Flat(bs[..i])| + |Flat(bs[i..j])|
  {
    FlatSplit(bs[..j], i);
    assert bs[..j][..i] == bs[..i] && bs[..j][i..] == bs[i..j];
  }

  /** Where a cursor in block `idx` stands relative to the blocks before and behind. */
  lemma {:induction false} InsideBlock(bs: seq<Block>, idx: nat, off: int, pos: int)
    requires At(bs, idx, off, pos) && idx < |bs|
    ensures |Flat(bs[..idx])| <= pos <= |Flat(bs[..idx + 1])|
    ensures bs[idx].size > 0 ==> pos < |Flat(bs[..idx + 1])|
    ensures bs[idx].size == 0 ==> pos == |Flat(bs[..idx])|
  {
    hide Flat;
    FlatPrefix(bs, idx);
  }

  // ------------------------------------------------------------------ bytes in front

  /** The bytes before each old block move by what was added. */
  lemma {:induction false} RaisedPrefix(a: seq<Block>, b: seq<Block>, n: nat, i: nat)
    requires Raised(a, b, n) && i <= |a|
    ensures var k := |b| - |a|;
            |Flat(b[..k + i])| == |Flat(b[..k])| + |Flat(a[..i])| + if i == 0 then 0 else n
  {
    hide Flat;
    var k := |b| - |a|;
    PrefixGrows(b, k, k + i);
    if i == 0 {
      assert b[k..k + i] == [] && a[..i] == [];
      FlatNil();
    } else {
      var c := a[0 := Lower(a[0], n)];
      assert b[k..k + i] == b[k..][..i] == c[..i];
      FlatFirst(c[..i]);
      FlatFirst(a[..i]);
      assert c[..i][1..] == a[..i][1..];
    }
  }

  /** pktbuf_add_header: the cursor survives if and only if no byte was added. */
  lemma {:induction false} RaisedKeepsIff(a: seq<Block>, b: seq<Block>, n: nat, idx: int, off: int, pos: int)
    requires Raised(a, b, n) && Distinct(b) && At(a, idx, off, pos)
    ensures Right(b, Cur(a, idx), off, pos) <==> |Flat(b)| == |Flat(a)|
  {
    hide Flat;
    var k := |b| - |a|;
    RaisedPrefix(a, b, n, |a|);
    assert b[..k + |a|] == b && a[..|a|] == a;
    if idx < |a| {
      RaisedPrefix(a, b, n, idx);
      assert b[k + idx] == b[k..][idx] == a[0 := Lower(a[0], n)][idx];
      RightAt(b, k + idx, off, pos);
      assert a[..0] == [];
      FlatNil();
    }
  }

  // ------------------------------------------------------------------ bytes off the front

  /** After the first `n` bytes went, a block that stays has the bytes before it less `n`. */
  lemma {:induction false} CutPrefix(a: seq<Block>, b: seq<Block>, n: nat, i: nat)
    requires FrontCut(a, b, n, n) && i <= |b|
    ensures var k := |a| - |b|;
            if i == 0 then b[..i] == [] else |Flat(b[..i])| == |Flat(a[..k + i])| - n
  {
    hide Flat;
    var k := |a| - |b|;
    if i > 0 {
      PrefixGrows(a, k, k + i);
      assert a[k..k + i] == a[k..][..i];
      if n != |Flat(a[..k])| {
        var s := n - |Flat(a[..k])|;
        FlatFirst(b[..i]);
        FlatFirst(a[k..k + i]);
        assert b[..i][1..] == a[k..k + i][1..];
      }
    }
  }

  /** The block of the cursor went, so the cursor stood inside the bytes that went. */
  lemma {:induction false} CutBlockGone(a: seq<Block>, b: seq<Block>, n: nat, idx: nat, off: int, pos: int)
    requires FrontCut(a, b, n, n) && Distinct(a) && At(a, idx, off, pos) && idx < |a| - |b|
    ensures pos < n && forall i :: 0 <= i < |b| ==> b[i].id != a[idx].id
  {
    hide Flat, At;
    var k := |a| - |b|;
    InsideBlock(a, idx, off, pos);
    PrefixGrows(a, idx + 1, k);
    forall i | 0 <= i < |b| ensures b[i].id == a[k + i].id {
      assert i > 0 ==> b[i] == a[k + i];
    }
  }

  /** The first `n` bytes gone: the cursor names position `q` if and only if it was behind them
      and `q` is its old position less `n`. */
  lemma {:induction false} CutKeepsIff(a: seq<Block>, b: seq<Block>, n: nat, idx: int, off: int, pos: int, q: int)
    requires FrontCut(a, b, n, n) && Distinct(a) && At(a, idx, off, pos) && |Flat(b)| == |Flat(a)| - n
    ensures Right(b, Cur(a, idx), off, q) <==> n <= pos && q == pos - n
  {
    hide Flat, FrontCut;
    var k := |a| - |b|;
    assert 0 <= k <= |a| by { CutShorter(a, b, n); }
    if idx < k {
      CutBlockGone(a, b, n, idx, off, pos);
      RightGone(b, a[idx].id, off, q);
    } else if idx < |a| {
      CutStays(a, b, n, idx, off, pos, q);
    }
  }

  lemma {:induction false} CutShorter(a: seq<Block>, b: seq<Block>, n: nat)
    requires FrontCut(a, b, n, n)
    ensures |b| <= |a|
    ensures forall i :: 0 <= i < |b| ==> b[i].id == a[|a| - |b| + i].id
  {
  }

  lemma {:induction false} CutStays(a: seq<Block>, b: seq<Block>, n: nat, idx: nat, off: int, pos: int, q: int)
    requires FrontCut(a, b, n, n) && Distinct(a) && At(a, idx, off, pos) && |a| - |b| <= idx < |a|
    ensures Right(b, Some(a[idx].id), off, q) <==> n <= pos && q == pos - n
  {
    hide Flat;
    var k := |a| - |b|;
    CutShorter(a, b, n);
    assert Distinct(b);
    RightAt(b, idx - k, off, q);
    CutPrefix(a, b, n, idx - k);
    FlatNil();
    PrefixGrows(a, k, idx);
  }

  // ------------------------------------------------------------------ bytes behind

  /** pktbuf_join and a growing pktbuf_resize: a cursor in a block survives; one whose curr_blk is
      NULL does if and only if no byte was added. */
  lemma {:induction false} ExtendedKeepsIff(a: seq<Block>, b: seq<Block>, idx: int, off: int, pos: int)
    requires Extended(a, b) && Distinct(b) && At(a, idx, off, pos)
    ensures Right(b, Cur(a, idx), off, pos) <==> idx < |a| || |Flat(b)| == |Flat(a)|
  {
    hide Flat;
    if idx < |a| {
      assert b[..idx] == b[..|a| - 1][..idx] == a[..idx];
      assert idx < |a| - 1 ==> b[idx] == b[..|a| - 1][idx] == a[idx];
      RightAt(b, idx, off, pos);
    }
  }

  // ------------------------------------------------------------------ bytes off the end

  /** A shrinking pktbuf_resize: the cursor survives if and only if it stood in a block and in
      front of the cut; or at the start of the first block, which stays even without bytes. */
  lemma {:induction false} BackCutKeepsIff(a: seq<Block>, b: seq<Block>, n: nat, idx: int, off: int, pos: int)
    requires BackCut(a, b, n) && Distinct(a) && At(a, idx, off, pos) && |Flat(b)| == n < |Flat(a)|
    ensures Right(b, Cur(a, idx), off, pos) <==> idx < |a| && (pos < n || (n == 0 && idx == 0 && pos == 0))
  {
    hide Flat;
    var t := |b| - 1;
    if idx < |a| {
      InsideBlock(a, idx, off, pos);
      if idx > t {
        PrefixGrows(a, t + 1, idx);
        FlatPrefix(a, t);
        RightGone(b, a[idx].id, off, pos);
      } else {
        BackCutStays(a, b, n, idx, off, pos);
      }
    }
  }

  lemma {:induction false} BackCutStays(a: seq<Block>, b: seq<Block>, n: nat, idx: nat, off: int, pos: int)
    requires BackCut(a, b, n) && Distinct(a) && At(a, idx, off, pos) && idx < |b|
    ensures Right(b, Some(a[idx].id), off, pos) <==> pos < n || (n == 0 && idx == 0 && pos == 0)
  {
    hide Flat;
    var t := |b| - 1;
    assert Distinct(b);
    assert b[..idx] == a[..idx] && b[idx].id == a[idx].id;
    RightAt(b, idx, off, pos);
    InsideBlock(a, idx, off, pos);
    if idx < t {
      PrefixGrows(a, idx + 1, t);
    } else if t == 0 {
      assert a[..0] == [];
      FlatNil();
    }
  }

  // ------------------------------------------------------------------ the first bytes gathered

  /** pktbuf_set_cont when it has to move bytes: the cursor survives if and only if its curr_blk
      was NULL; or it stood in the first block and that block had no slack in front; or it stood in
      a later block, behind the bytes that were gathered. */
  lemma {:induction false} PulledKeepsIff(a: seq<Block>, b: seq<Block>, size: nat, idx: int, off: int, pos: int)
    requires Pulled(a, b, size) && Distinct(a) && At(a, idx, off, pos) && |Flat(a)| == |Flat(b)| && a[0].size < size
    ensures Right(b, Cur(a, idx), off, pos) <==>
              idx == |a| || (if idx == 0 then a[0].data == 0 else size <= pos)
  {
    hide Flat, FrontCut;
    if idx < |a| {
      var m := size - a[0].size;
      CutShorter(a[1..], b[1..], m);
      assert Distinct(b) by { PulledDistinct(a, b); }
      if idx == 0 {
        RightAt(b, 0, off, pos);
        assert a[..0] == [] == b[..0];
        FlatNil();
      } else {
        FlatFirst(a);
        FlatFirst(b);
        TailAt(a, idx, off, pos);
        CutKeepsIff(a[1..], b[1..], m, idx - 1, off, pos - a[0].size, pos - size);
        TailRight(b, a[idx].id, off, pos);
      }
    }
  }

  lemma {:induction false} PulledDistinct(a: seq<Block>, b: seq<Block>)
    requires a != [] && b != [] && Distinct(a) && a[0].id == b[0].id && |b| <= |a|
    requires forall i :: 0 <= i < |b[1..]| ==> b[1..][i].id == a[1..][|a[1..]| - |b[1..]| + i].id
    ensures Distinct(b)
  {
    forall i | 1 <= i < |b| ensures b[i].id == a[|a| - |b| + i].id {
      assert b[1..][i - 1].id == a[1..][|a| - |b| + i - 1].id;
    }
  }

  /** The same place, seen from the second block on. */
  lemma {:induction false} TailAt(bs: seq<Block>, idx: nat, off: int, pos: int)
    requires 0 < idx < |bs|
    ensures At(bs, idx, off, pos) <==> At(bs[1..], idx - 1, off, pos - bs[0].size)
  {
    hide Flat;
    FlatFirst(bs[..idx]);
    assert bs[..idx][1..] == bs[1..][..idx - 1];
  }

  lemma {:induction false} TailRight(bs: seq<Block>, id: nat, off: int, pos: int)
    requires bs != [] && bs[0].id != id
    ensures Right(bs, Some(id), off, pos) <==> Right(bs[1..], Some(id), off, pos - bs[0].size)
  {
    hide At;
    forall k | 0 < k < |bs| ensures At(bs, k, off, pos) <==> At(bs[1..], k - 1, off, pos - bs[0].size) {
      TailAt(bs, k, off, pos);
    }
    if Right(bs[1..], Some(id), off, pos - bs[0].size) {
      var k :| 0 <= k < |bs[1..]| && bs[1..][k].id == id && At(bs[1..], k, off, pos - bs[0].size);
      assert bs[k + 1].id == id && At(bs, k + 1, off, pos);
    }
    if Right(bs, Some(id), off, pos) {
      var k :| 0 <= k < |bs| && bs[k].id == id && At(bs, k, off, pos);
      assert bs[1..][k - 1].id == id && At(bs[1..], k - 1, off, pos - bs[0].size);
    }
  }

  // ------------------------------------------------------------------ the operations

  /** The cursor of the buffer, with curr_blk still at the block that it pointed to. */
  ghost predicate Survives(buf: PktBuf, cur: Option<nat>)
    reads buf
  {
    buf.Ok() && Right(buf.blkList, cur, buf.blkOffset, buf.pos)
  }

  /** pktbuf_add_header: the cursor survives if and only if the request is for no byte, or it fails
      and takes no slack either. */
  method AddHeader(pool: PktPool, buf: PktBuf, size: nat, cont: bool) returns (err: NetErr)
    requires CursorOk(buf) && buf.blkList != [] && Single(pool.blockList, buf.blkList)
    modifies pool`blockList, buf`blkList, buf`totalSize
    ensures var slack := old(buf.blkList[0].data);
            var fits := HeaderFits(slack, |old(pool.blockList)|, size, cont);
            Survives(buf, old(Cur(buf.blkList, buf.currIdx))) <==> size == 0 || (!fits && (cont || slack == 0))
    ensures Single(pool.blockList, buf.blkList)
  {
    hide Flat, Count, At, Raised, Right;
    ghost var bs, free := buf.blkList, pool.blockList;
    err := pool.AddHeader(buf, size, cont);
    SingleKept(free, bs, pool.blockList, buf.blkList);
    SingleDistinct(pool.blockList, buf.blkList);
    ghost var n := if size <= bs[0].data then size else if cont then 0 else bs[0].data;
    RaisedKeepsIff(bs, buf.blkList, n, buf.currIdx, buf.blkOffset, buf.pos);
  }

  /** pktbuf_remove_header: the cursor survives if and only if no byte is removed. */
  method RemoveHeader(pool: PktPool, buf: PktBuf, size: nat) returns (err: NetErr)
    requires CursorOk(buf) && size <= buf.totalSize && Single(pool.blockList, buf.blkList)
    modifies pool`blockList, buf`blkList, buf`totalSize
    ensures Survives(buf, old(Cur(buf.blkList, buf.currIdx))) <==> size == 0
    ensures Right(buf.blkList, old(Cur(buf.blkList, buf.currIdx)), buf.blkOffset, buf.pos - size) <==> size <= buf.pos
    ensures Single(pool.blockList, buf.blkList)
  {
    hide Flat, Count, At, FrontCut, Right;
    ghost var bs, free := buf.blkList, pool.blockList;
    SingleDistinct(free, bs);
    err := pool.RemoveHeader(buf, size);
    SingleKept(free, bs, pool.blockList, buf.blkList);
    CutKeepsIff(bs, buf.blkList, size, buf.currIdx, buf.blkOffset, buf.pos, buf.pos);
    CutKeepsIff(bs, buf.blkList, size, buf.currIdx, buf.blkOffset, buf.pos, buf.pos - size);
    AtBounds(bs, buf.currIdx, buf.blkOffset, buf.pos);
  }

  /** pktbuf_resize: a cursor with a current block survives growth, and a shrinking call if and
      only if it stood in front of the cut or at the start of a first block left empty; a cursor at
      the end survives if and only if the size stays what it was. */
  method Resize(pool: PktPool, buf: PktBuf, toSize: nat) returns (err: NetErr)
    requires CursorOk(buf) && Single(pool.blockList, buf.blkList)
    modifies pool`blockList, buf`blkList, buf`totalSize
    ensures var total := old(buf.totalSize);
            var fits := GrowFits(old(buf.blkList), total, |old(pool.blockList)|, toSize);
            Survives(buf, old(Cur(buf.blkList, buf.currIdx))) <==>
              if old(buf.currIdx) == |old(buf.blkList)| then toSize == total || (total < toSize && !fits)
              else total <= toSize || buf.pos < toSize || (toSize == 0 && buf.currIdx == 0 && buf.pos == 0)
    ensures Single(pool.blockList, buf.blkList)
  {
    hide Flat, Count, At, Extended, BackCut, Right;
    ghost var bs, free, total := buf.blkList, pool.blockList, buf.totalSize;
    SingleDistinct(free, bs);
    err := pool.Resize(buf, toSize);
    SingleKept(free, bs, pool.blockList, buf.blkList);
    SingleDistinct(pool.blockList, buf.blkList);
    AtIndex(bs, buf.currIdx, buf.blkOffset, buf.pos);
    if toSize < total {
      BackCutKeepsIff(bs, buf.blkList, toSize, buf.currIdx, buf.blkOffset, buf.pos);
    } else {
      ExtendedKeepsIff(bs, buf.blkList, buf.currIdx, buf.blkOffset, buf.pos);
    }
  }

  lemma {:induction false} AtIndex(bs: seq<Block>, idx: int, off: int, pos: int)
    requires At(bs, idx, off, pos)
    ensures 0 <= idx <= |bs|
  {
  }

  /** pktbuf_set_cont: the cursor survives if and only if nothing is moved, or curr_blk was NULL, or
      it stood in a first block without front slack, or behind the bytes that are gathered. */
  method SetCont(pool: PktPool, buf: PktBuf, size: nat) returns (err: NetErr)
    requires CursorOk(buf) && Single(pool.blockList, buf.blkList)
    requires size <= buf.totalSize && size <= BLK_SIZE ==> buf.blkList != []
    modifies pool`blockList, buf`blkList
    ensures var bs := old(buf.blkList);
            Survives(buf, Cur(bs, buf.currIdx)) <==>
              || buf.totalSize < size || BLK_SIZE < size || size <= bs[0].size || buf.currIdx == |bs|
              || (if buf.currIdx == 0 then bs[0].data == 0 else size <= buf.pos)
    ensures Single(pool.blockList, buf.blkList)
  {
    hide Flat, Count, At, Pulled, Right;
    ghost var bs, free := buf.blkList, pool.blockList;
    SingleDistinct(free, bs);
    err := pool.SetCont(buf, size);
    SingleKept(free, bs, pool.blockList, buf.blkList);
    if err == OK && bs[0].size < size {
      PulledKeepsIff(bs, buf.blkList, size, buf.currIdx, buf.blkOffset, buf.pos);
    } else {
      Untouched(bs, buf.currIdx, buf.blkOffset, buf.pos);
    }
  }

  lemma {:induction false} Untouched(bs: seq<Block>, idx: int, off: int, pos: int)
    requires At(bs, idx, off, pos)
    ensures Right(bs, Cur(bs, idx), off, pos)
  {
  }

  /** pktbuf_join: the cursor of the destination survives if and only if it has a current block or
      the source holds no byte; that of a source that stays referenced, if and only if it stood at
      the end of no byte. */
  method Join(pool: PktPool, dest: PktBuf, src: PktBuf) returns (err: NetErr)
    requires CursorOk(dest) && CursorOk(src) && dest != src && Single(src.blkList, dest.blkList)
    modifies pool`blockList, pool`pktbufList, dest`blkList, dest`totalSize, src`blkList, src`ref
    ensures Survives(dest, old(Cur(dest.blkList, dest.currIdx))) <==>
              old(dest.currIdx) < |old(dest.blkList)| || old(src.totalSize) == 0
    ensures Survives(src, old(Cur(src.blkList, src.currIdx))) <==>
              old(src.currIdx) == |old(src.blkList)| && old(src.totalSize) == 0
  {
    hide Flat, Count;
    ghost var a, c := dest.blkList, src.blkList;
    err := pool.Join(dest, src);
    FlatNil();
    JoinedChains(a, c);
    ExtendedKeepsIff(a, a + c, dest.currIdx, dest.blkOffset, dest.pos);
  }

  lemma {:induction false} JoinedChains(a: seq<Block>, c: seq<Block>)
    requires Single(c, a)
    ensures Extended(a, a + c) && Distinct(a + c)
  {
    BagAppend(a, c);
    SingleDistinct([], a + c);
    assert a != [] ==> (a + c)[..|a| - 1] == a[..|a| - 1];
  }

  /** The block of the cursor stays in the chain and the cursor does not survive: a packet of ten
      bytes with the cursor at the eighth, resized to five. */
  method ShrinkUnderCursor() returns (buf: PktBuf)
    ensures |buf.blkList| == 1 && Cur(buf.blkList, buf.currIdx) == Some(buf.blkList[0].id)
    ensures buf.totalSize == 5 && buf.pos == 7 && !CursorOk(buf)
  {
    var pool := new PktPool();
    var b := new PktBuf();
    pool.blockList := [RawBlock(0, 0, 0, seq(BLK_SIZE, i => 0))];
    pool.pktbufList := [b];
    var res := pool.Alloc(10);
    buf := res.value;
    ResetAt(buf.blkList);
    var _ := Seek(buf, 7);
    var _ := pool.Resize(buf, 5);
    if CursorOk(buf) {
      AtBounds(buf.blkList, buf.currIdx, buf.blkOffset, buf.pos);
    }
  }
}
