/** The read/write cursor of kernel/net/pktbuf.c: every operation on a chain of blocks does
    what the same operation does on flat bytes. */
module PktCursor {
  import opened Chunks
  import opened Checksum
  import opened Pktbuf

  /** The same blocks in the same order, each with its data in the same place: what every
      operation that only stores bytes keeps. */
  ghost predicate SameShape(a: seq<Block>, b: seq<Block>) {
    |a| == |b| && forall i :: 0 <= i < |a| ==> a[i].id == b[i].id && a[i].size == b[i].size && a[i].data == b[i].data
  }

  lemma {:induction false} SameShapeSameBlocks(a: seq<Block>, b: seq<Block>)
    requires SameShape(a, b)
    ensures Same1(a, b)
  {
    if a != [] {
      SameShapeSameBlocks(a[1..], b[1..]);
    }
  }

  /** Block `idx` and payload index `off` denote flat position `pos`. A cursor stays at the end
      of a block only if that block is empty; past the last block it stands at the end. */
  ghost predicate At(bs: seq<Block>, idx: int, off: int, pos: int) {
    && 0 <= idx <= |bs|
    && (if idx == |bs| then pos == |Flat(bs)|
        else InBlock(bs[idx], off) && pos == |Flat(bs[..idx])| + (off - bs[idx].data))
  }

  ghost predicate InBlock(b: Block, off: int) {
    b.data <= off <= b.data + b.size && (off == b.data + b.size ==> b.size == 0)
  }

  ghost predicate CursorOk(buf: PktBuf)
    reads buf
  {
    buf.Ok() && At(buf.blkList, buf.currIdx, buf.blkOffset, buf.pos)
  }

  lemma {:induction false} AtBounds(bs: seq<Block>, idx: int, off: int, pos: int)
    requires At(bs, idx, off, pos)
    ensures 0 <= pos <= |Flat(bs)|
    ensures idx < |bs| ==> pos + (bs[idx].data + bs[idx].size - off) <= |Flat(bs)|
  {
    if idx < |bs| {
      FlatAt(bs, idx);
    }
  }

  lemma {:induction false} FlatAt(bs: seq<Block>, idx: nat)
    requires idx < |bs|
    ensures Flat(bs) == Flat(bs[..idx]) + (bs[idx].View() + Flat(bs[idx + 1..]))
  {
    assert Views(bs)[..idx] == Views(bs[..idx]) && Views(bs)[idx + 1..] == Views(bs[idx + 1..]);
    ConcatAt(Views(bs), idx);
  }

  lemma {:induction false} ResetAt(bs: seq<Block>)
    ensures At(bs, 0, if bs == [] then 0 else bs[0].data, 0)
  {
    FlatNil();
  }

  /** Moving `n` bytes forward inside the current block, and to the next one at its end. */
  lemma {:induction false} ForwardAt(bs: seq<Block>, idx: int, off: int, pos: int, n: nat)
    requires At(bs, idx, off, pos) && idx < |bs| && off + n <= bs[idx].data + bs[idx].size
    ensures if off + n >= bs[idx].data + bs[idx].size
            then At(bs, idx + 1, if idx + 1 < |bs| then bs[idx + 1].data else 0, pos + n)
            else At(bs, idx, off + n, pos + n)
  {
    FlatPrefix(bs, idx);
    assert bs[..|bs|] == bs;
  }

  function Remain(buf: PktBuf): (r: int)
    reads buf
  {
    if 0 <= buf.currIdx < |buf.blkList|
    then buf.blkList[buf.currIdx].data + buf.blkList[buf.currIdx].size - buf.blkOffset
    else 0
  }

  /** move_forward. */
  method MoveForward(buf: PktBuf, n: nat)
    requires CursorOk(buf) && buf.currIdx < |buf.blkList| && n <= Remain(buf)
    modifies buf`pos, buf`currIdx, buf`blkOffset
    ensures CursorOk(buf) && buf.pos == old(buf.pos) + n
    ensures buf.currIdx >= old(buf.currIdx) && (n == 0 && old(Remain(buf)) == 0 ==> buf.currIdx > old(buf.currIdx))
  {
    ForwardAt(buf.blkList, buf.currIdx, buf.blkOffset, buf.pos, n);
    var curr := buf.blkList[buf.currIdx];
    buf.pos := buf.pos + n;
    buf.blkOffset := buf.blkOffset + n;
    if buf.blkOffset >= curr.data + curr.size {
      buf.currIdx := buf.currIdx + 1;
      buf.blkOffset := if buf.currIdx < |buf.blkList| then buf.blkList[buf.currIdx].data else 0;
    }
  }

  /** pktbuf_seek. The backward branch restarts from the first block, so it needs no valid
      cursor to start from. */
  method Seek(buf: PktBuf, offset: int) returns (err: NetErr)
    requires buf.Ok()
    requires 0 <= offset < buf.pos || CursorOk(buf)
    modifies buf`pos, buf`currIdx, buf`blkOffset
    ensures err == if offset == old(buf.pos) || 0 <= offset < buf.totalSize then OK else SIZE
    ensures err == OK ==> CursorOk(buf) && buf.pos == offset
    ensures err != OK ==> unchanged(buf)
  {
    if buf.pos == offset {
      return OK;
    }
    if offset < 0 || offset >= buf.totalSize {
      return SIZE;
    }
    if offset < buf.pos {
      ResetAcc(buf);
      ResetAt(buf.blkList);
    }
    var left := offset - buf.pos;
    while left > 0
      invariant CursorOk(buf) && left >= 0 && buf.pos + left == offset
      decreases left, |buf.blkList| - buf.currIdx
    {
      var n := Min(left, Remain(buf));
      MoveForward(buf, n);
      left := left - n;
    }
    return OK;
  }

  /** Bytes of the current block are the flat bytes from `pos` on. */
  lemma {:induction false} PeekAt(bs: seq<Block>, idx: int, off: int, pos: int, n: nat)
    requires At(bs, idx, off, pos) && idx < |bs| && off + n <= bs[idx].data + bs[idx].size
    ensures 0 <= pos && pos + n <= |Flat(bs)| && Flat(bs)[pos..pos + n] == bs[idx].payload[off..off + n]
  {
    var b := bs[idx];
    var rel := off - b.data;
    FlatAt(bs, idx);
    SliceInside(Flat(bs[..idx]), b.View(), Flat(bs[idx + 1..]), rel, n);
    SubSlice(b.payload, b.data, b.size, rel, n);
  }

  /** Overwriting payload bytes of the current block overwrites the flat bytes from `pos` on. */
  lemma {:induction false} PokeAt(bs: seq<Block>, idx: int, off: int, pos: int, d: seq<Byte>)
    requires At(bs, idx, off, pos) && idx < |bs| && off + |d| <= bs[idx].data + bs[idx].size
    ensures var bs' := bs[idx := Poke(bs[idx], off, d)];
            && 0 <= pos && pos + |d| <= |Flat(bs)| && Flat(bs') == Splice(Flat(bs), pos, d)
            && At(bs', idx, off, pos)
  {
    var b, rest := Poke(bs[idx], off, d), bs[idx + 1..];
    var bs' := bs[idx := b];
    FlatAt(bs, idx);
    FlatAt(bs', idx);
    assert bs'[..idx] == bs[..idx] && bs'[idx + 1..] == rest;
    SpliceInside(Flat(bs[..idx]), bs[idx].View(), Flat(rest), off - b.data, d);
  }

  function Poke(b: Block, off: int, d: seq<Byte>): (r: Block)
    requires b.data <= off && off + |d| <= b.data + b.size
    ensures r.id == b.id && r.data == b.data && r.size == b.size
    ensures r.View() == Splice(b.View(), off - b.data, d)
  {
    var r: Block := b.(payload := Splice(b.payload, off, d));
    assert r.View() == Splice(b.View(), off - b.data, d);
    r
  }

  /** memcpy to blk_offset followed by move_forward. */
  method WriteHere(buf: PktBuf, d: seq<Byte>)
    requires CursorOk(buf) && buf.currIdx < |buf.blkList| && |d| <= Remain(buf)
    modifies buf`blkList, buf`pos, buf`currIdx, buf`blkOffset
    ensures CursorOk(buf) && buf.pos == old(buf.pos) + |d| && SameShape(buf.blkList, old(buf.blkList))
    ensures 0 <= old(buf.pos) && old(buf.pos) + |d| <= |old(buf.Bytes())|
    ensures buf.Bytes() == Splice(old(buf.Bytes()), old(buf.pos), d)
    ensures buf.currIdx >= old(buf.currIdx)
    ensures d == [] && old(Remain(buf)) == 0 ==> buf.currIdx > old(buf.currIdx)
  {
    PokeAt(buf.blkList, buf.currIdx, buf.blkOffset, buf.pos, d);
    var b := Poke(buf.blkList[buf.currIdx], buf.blkOffset, d);
    buf.blkList := buf.blkList[buf.currIdx := b];
    MoveForward(buf, |d|);
  }

  /** memcpy from blk_offset followed by move_forward. */
  method ReadHere(buf: PktBuf, n: nat) returns (d: seq<Byte>)
    requires CursorOk(buf) && buf.currIdx < |buf.blkList| && n <= Remain(buf)
    modifies buf`pos, buf`currIdx, buf`blkOffset
    ensures CursorOk(buf) && buf.pos == old(buf.pos) + n && 0 <= old(buf.pos) && buf.pos <= |buf.Bytes()|
    ensures d == buf.Bytes()[old(buf.pos)..buf.pos]
    ensures buf.currIdx >= old(buf.currIdx) && (n == 0 && old(Remain(buf)) == 0 ==> buf.currIdx > old(buf.currIdx))
  {
    PeekAt(buf.blkList, buf.currIdx, buf.blkOffset, buf.pos, n);
    d := buf.blkList[buf.currIdx].payload[buf.blkOffset..buf.blkOffset + n];
    MoveForward(buf, n);
  }

  /** Writes all of `src` from `pos` on, block by block. */
  method WriteAll(buf: PktBuf, src: seq<Byte>)
    requires CursorOk(buf) && buf.pos + |src| <= buf.totalSize
    modifies buf`blkList, buf`pos, buf`currIdx, buf`blkOffset
    ensures CursorOk(buf) && buf.pos == old(buf.pos) + |src| && SameShape(buf.blkList, old(buf.blkList))
    ensures 0 <= old(buf.pos) && old(buf.pos) + |src| <= |old(buf.Bytes())|
    ensures buf.Bytes() == Splice(old(buf.Bytes()), old(buf.pos), src)
  {
    hide Written, Splice, Flat;
    AtBounds(buf.blkList, buf.currIdx, buf.blkOffset, buf.pos);
    ghost var bytes, start := buf.Bytes(), buf.pos;
    var i := 0;
    WrittenNone(bytes, start, src, 0);
    while i < |src|
      invariant 0 <= i <= |src| && CursorOk(buf) && buf.pos == start + i
      invariant Written(buf.Bytes(), bytes, start, src, 0, i)
      invariant SameShape(buf.blkList, old(buf.blkList))
      decreases |src| - i, |buf.blkList| - buf.currIdx
    {
      var n := Min(|src| - i, Remain(buf));
      ghost var before := buf.Bytes();
      var d := src[i..i + n];
      WrittenMore(before, bytes, start, src, 0, i, d);
      WriteHere(buf, d);
      i := i + n;
    }
    WrittenAll(buf.Bytes(), bytes, start, src, 0, i);
    assert src[0..|src|] == src;
  }

  /** pktbuf_write: overwrites exactly the bytes from `pos` on. */
  method Write(buf: PktBuf, src: seq<Byte>) returns (err: NetErr)
    requires CursorOk(buf)
    modifies buf`blkList, buf`pos, buf`currIdx, buf`blkOffset
    ensures err == if src == [] then PARAM else if old(buf.pos) + |src| > buf.totalSize then SIZE else OK
    ensures err != OK ==> unchanged(buf)
    ensures CursorOk(buf) && 0 <= old(buf.pos) && SameShape(buf.blkList, old(buf.blkList))
    ensures err == OK ==>
              old(buf.pos) + |src| <= |old(buf.Bytes())| && buf.pos == old(buf.pos) + |src| &&
              buf.Bytes() == Splice(old(buf.Bytes()), old(buf.pos), src)
  {
    AtBounds(buf.blkList, buf.currIdx, buf.blkOffset, buf.pos);
    if src == [] {
      return PARAM;
    }
    if buf.totalSize - buf.pos < |src| {
      return SIZE;
    }
    WriteAll(buf, src);
    return OK;
  }

  function Repeat(v: Byte, n: nat): (r: seq<Byte>)
    ensures |r| == n && forall i :: 0 <= i < n ==> r[i] == v
  {
    seq(n, i => v)
  }

  /** pktbuf_fill: memset instead of memcpy in the same loop. */
  method Fill(buf: PktBuf, v: Byte, size: nat) returns (err: NetErr)
    requires CursorOk(buf)
    modifies buf`blkList, buf`pos, buf`currIdx, buf`blkOffset
    ensures err == if size == 0 then PARAM else if old(buf.pos) + size > buf.totalSize then SIZE else OK
    ensures err != OK ==> unchanged(buf)
    ensures CursorOk(buf) && 0 <= old(buf.pos) && SameShape(buf.blkList, old(buf.blkList))
    ensures err == OK ==>
              old(buf.pos) + size <= |old(buf.Bytes())| && buf.pos == old(buf.pos) + size &&
              buf.Bytes() == Splice(old(buf.Bytes()), old(buf.pos), Repeat(v, size))
  {
    AtBounds(buf.blkList, buf.currIdx, buf.blkOffset, buf.pos);
    if size == 0 {
      return PARAM;
    }
    if buf.totalSize - buf.pos < size {
      return SIZE;
    }
    WriteAll(buf, Repeat(v, size));
    return OK;
  }

  /** pktbuf_read: the bytes from `pos` on. */
  method Read(buf: PktBuf, size: nat) returns (err: NetErr, d: seq<Byte>)
    requires CursorOk(buf)
    modifies buf`pos, buf`currIdx, buf`blkOffset
    ensures err == if size > 0 && old(buf.pos) + size > buf.totalSize then SIZE else OK
    ensures err != OK ==> d == [] && unchanged(buf)
    ensures CursorOk(buf) && 0 <= old(buf.pos)
    ensures err == OK ==>
              buf.pos == old(buf.pos) + size && buf.pos <= |buf.Bytes()| && d == buf.Bytes()[old(buf.pos)..buf.pos]
  {
    hide Flat;
    d := [];
    AtBounds(buf.blkList, buf.currIdx, buf.blkOffset, buf.pos);
    if size == 0 {
      return OK, [];
    }
    if buf.totalSize - buf.pos < size {
      return SIZE, [];
    }
    ghost var start := buf.pos;
    while |d| < size
      invariant |d| <= size && CursorOk(buf) && buf.pos == start + |d| && 0 <= start && buf.pos <= |buf.Bytes()|
      invariant d == buf.Bytes()[start..buf.pos]
      decreases size - |d|, |buf.blkList| - buf.currIdx
    {
      var e := ReadHere(buf, Min(size - |d|, Remain(buf)));
      d := d + e;
    }
    return OK, d;
  }

  /** pktbuf_copy: moves `size` bytes between two buffers that are divided differently. */
  method Copy(dest: PktBuf, src: PktBuf, size: nat) returns (err: NetErr)
    requires CursorOk(dest) && CursorOk(src) && dest != src
    modifies dest`blkList, dest`pos, dest`currIdx, dest`blkOffset, src`pos, src`currIdx, src`blkOffset
    ensures err == if dest.totalSize - old(dest.pos) < size || src.totalSize - old(src.pos) < size then SIZE else OK
    ensures err != OK ==> unchanged(dest) && unchanged(src)
    ensures CursorOk(dest) && CursorOk(src) && 0 <= old(dest.pos) && 0 <= old(src.pos)
    ensures SameShape(dest.blkList, old(dest.blkList))
    ensures err == OK ==>
              && old(src.pos) + size <= |src.Bytes()| && old(dest.pos) + size <= |old(dest.Bytes())|
              && dest.pos == old(dest.pos) + size && src.pos == old(src.pos) + size
              && dest.Bytes() == Splice(old(dest.Bytes()), old(dest.pos), src.Bytes()[old(src.pos)..src.pos])
  {
    AtBounds(dest.blkList, dest.currIdx, dest.blkOffset, dest.pos);
    AtBounds(src.blkList, src.currIdx, src.blkOffset, src.pos);
    if dest.totalSize - dest.pos < size || src.totalSize - src.pos < size {
      return SIZE;
    }
    CopyAll(dest, src, size);
    return OK;
  }

  /** memcpy between the two current blocks followed by two move_forward. */
  method CopyHere(dest: PktBuf, src: PktBuf, n: nat, ghost d: seq<Byte>)
    requires CursorOk(dest) && CursorOk(src) && dest != src
    requires dest.currIdx < |dest.blkList| && src.currIdx < |src.blkList|
    requires n <= Remain(dest) && n <= Remain(src)
    requires 0 <= src.pos && src.pos + n <= |src.Bytes()| && d == src.Bytes()[src.pos..src.pos + n]
    modifies dest`blkList, dest`pos, dest`currIdx, dest`blkOffset, src`pos, src`currIdx, src`blkOffset
    ensures CursorOk(dest) && CursorOk(src) && SameShape(dest.blkList, old(dest.blkList))
    ensures 0 <= old(dest.pos) && dest.pos == old(dest.pos) + n <= |old(dest.Bytes())|
    ensures 0 <= old(src.pos) && src.pos == old(src.pos) + n <= |src.Bytes()|
    ensures dest.Bytes() == Splice(old(dest.Bytes()), old(dest.pos), d)
    ensures dest.currIdx >= old(dest.currIdx) && src.currIdx >= old(src.currIdx)
    ensures n == 0 && old(Remain(dest)) == 0 ==> dest.currIdx > old(dest.currIdx)
    ensures n == 0 && old(Remain(src)) == 0 ==> src.currIdx > old(src.currIdx)
  {
    var data := ReadHere(src, n);
    WriteHere(dest, data);
  }

  /** The loop of pktbuf_copy. */
  method CopyAll(dest: PktBuf, src: PktBuf, size: nat)
    requires CursorOk(dest) && CursorOk(src) && dest != src
    requires dest.pos + size <= dest.totalSize && src.pos + size <= src.totalSize
    modifies dest`blkList, dest`pos, dest`currIdx, dest`blkOffset, src`pos, src`currIdx, src`blkOffset
    ensures CursorOk(dest) && CursorOk(src) && 0 <= old(dest.pos) && 0 <= old(src.pos)
    ensures SameShape(dest.blkList, old(dest.blkList))
    ensures dest.pos == old(dest.pos) + size <= |old(dest.Bytes())|
    ensures src.pos == old(src.pos) + size <= |src.Bytes()|
    ensures dest.Bytes() == Splice(old(dest.Bytes()), old(dest.pos), src.Bytes()[old(src.pos)..src.pos])
  {
    hide Written, Splice, Flat;
    AtBounds(dest.blkList, dest.currIdx, dest.blkOffset, dest.pos);
    AtBounds(src.blkList, src.currIdx, src.blkOffset, src.pos);
    ghost var p, q := dest.pos, src.pos;
    ghost var bytes, data := dest.Bytes(), src.Bytes();
    var i := 0;
    WrittenNone(bytes, p, data, q);
    while i < size
      invariant 0 <= i <= size && CursorOk(dest) && CursorOk(src) && SameShape(dest.blkList, old(dest.blkList))
      invariant dest.pos == p + i && src.pos == q + i
      invariant Written(dest.Bytes(), bytes, p, data, q, i)
      decreases size - i, |dest.blkList| - dest.currIdx, |src.blkList| - src.currIdx
    {
      var n := Min(size - i, Min(Remain(dest), Remain(src)));
      ghost var before := dest.Bytes();
      ghost var d := data[q + i..q + i + n];
      WrittenMore(before, bytes, p, data, q, i, d);
      CopyHere(dest, src, n, d);
      i := i + n;
    }
    WrittenAll(dest.Bytes(), bytes, p, data, q, i);
  }

  /** No empty block lies at an odd distance behind the cursor. (checksum16 reads a byte before
      it looks at the length when its area starts at an odd offset.) */
  ghost predicate NoOddGap(bs: seq<Block>, from: int, pos: int) {
    forall k :: 0 <= from <= k < |bs| && bs[k].size == 0 ==> !Odd(|Flat(bs[..k])| - pos)
  }

  /** What is left of the current block. */
  ghost function Here(buf: PktBuf): (r: nat)
    requires CursorOk(buf)
    reads buf
    ensures r <= BLK_SIZE
  {
    if buf.currIdx < |buf.blkList| then Remain(buf) else 0
  }

  /** pktbuf_checksum16: block by block, on chunks of any size, it computes the checksum that
      one pass over the flat bytes gives, if and only if the first block does not make the 32-bit
      accumulator wrap: after it the sum has 16 bits. */
  method ChecksumArea(buf: PktBuf, size: nat, preSum: nat, complement: bool) returns (r: nat)
    requires CursorOk(buf) && preSum < TWO32 && NoOddGap(buf.blkList, buf.currIdx, buf.pos)
    modifies buf`pos, buf`currIdx, buf`blkOffset
    ensures CursorOk(buf) && 0 <= old(buf.pos)
    ensures r < TWO16 && (old(buf.pos) + size > buf.totalSize ==> r == 0 && unchanged(buf))
    ensures old(buf.pos) + size <= buf.totalSize && preSum < TWO16 ==>
              && buf.pos == old(buf.pos) + size && buf.pos <= |buf.Bytes()|
              && var area := buf.Bytes()[old(buf.pos)..buf.pos];
                 r == if complement then Complement(AreaSum(area, preSum)) else AreaSum(area, preSum)
    ensures old(buf.pos) + size <= buf.totalSize ==>
              && buf.pos == old(buf.pos) + size && buf.pos <= |buf.Bytes()|
              && var area := buf.Bytes()[old(buf.pos)..buf.pos];
                 r == (if complement then Complement(AreaSum(area, preSum)) else AreaSum(area, preSum)) <==>
                   preSum + WordSum(area[..Min(size, old(Here(buf)))]) < TWO32
  {
    hide Flat, ByteSum, WordSum, OnesFold, Summed, Base, AreaSum;
    AtBounds(buf.blkList, buf.currIdx, buf.blkOffset, buf.pos);
    if buf.totalSize - buf.pos < size {
      return 0;
    }
    ghost var area := buf.Bytes()[buf.pos..buf.pos + size];
    ghost var first := area[..Min(size, Here(buf))];
    r := SumBlocks(buf, size, preSum);
    AreaSumIff(r, preSum, first, area);
    r := r % TWO16;
    r := if complement then Complement(r) else r;
  }

  /** The loop of pktbuf_checksum16. */
  method SumBlocks(buf: PktBuf, size: nat, preSum: nat) returns (sum: nat)
    requires CursorOk(buf) && preSum < TWO32 && NoOddGap(buf.blkList, buf.currIdx, buf.pos)
    requires 0 <= buf.pos && buf.pos + size <= buf.totalSize
    modifies buf`pos, buf`currIdx, buf`blkOffset
    ensures CursorOk(buf) && buf.pos == old(buf.pos) + size <= |buf.Bytes()|
    ensures size == 0 ==> sum == preSum
    ensures var area := buf.Bytes()[old(buf.pos)..buf.pos];
            size > 0 ==> Summed(sum, Base(preSum, area[..Min(size, old(Here(buf)))]), area)
  {
    hide Flat, ByteSum, OnesFold, Summed, Base;
    ghost var start, area := buf.pos, buf.Bytes()[buf.pos..buf.pos + size];
    ghost var first := area[..Min(size, Here(buf))];
    ghost var started, rem := false, Here(buf);
    sum := preSum;
    var off := 0;
    while off < size
      invariant 0 <= off <= size && CursorOk(buf) && buf.pos == start + off && old(buf.currIdx) <= buf.currIdx
      invariant sum < TWO32 && (size == 0 ==> sum == preSum)
      invariant !started ==> off == 0 && sum == preSum && Here(buf) == rem
      invariant started ==> Summed(sum, Base(preSum, first), area[..off])
      decreases size - off, |buf.blkList| - buf.currIdx
    {
      var n := Min(size - off, Remain(buf));
      SubSlice(buf.Bytes(), start, size, off, n);
      var d := ReadHere(buf, n);
      if started {
        LaterStep(sum, Base(preSum, first), area, off, d);
      } else {
        assert d == first && area[..n] == d;
        FirstStep(preSum, d);
      }
      sum := Checksum16(off, d, sum, false);
      off := off + n;
      started := true;
    }
    assert area[..size] == area;
  }

  /** A store through pktbuf_data: `d` at byte `off` of the first block's data. */
  method PokeFirst(buf: PktBuf, off: nat, d: seq<Byte>)
    requires buf.Ok() && buf.blkList != [] && d != [] && off + |d| <= buf.blkList[0].size
    modifies buf`blkList
    ensures buf.Ok() && SameShape(buf.blkList, old(buf.blkList))
    ensures off + |d| <= |old(buf.Bytes())| && buf.Bytes() == Splice(old(buf.Bytes()), off, d)
  {
    FlatNil();
    PokeAt(buf.blkList, 0, buf.blkList[0].data + off, off, d);
    var b := Poke(buf.blkList[0], buf.blkList[0].data + off, d);
    buf.blkList := buf.blkList[0 := b];
  }

  /** A load through pktbuf_data. */
  method PeekFirst(buf: PktBuf, off: nat) returns (v: Byte)
    requires buf.Ok() && buf.blkList != [] && off < buf.blkList[0].size
    ensures off < |buf.Bytes()| && v == buf.Bytes()[off]
  {
    FlatFirst(buf.blkList);
    v := buf.blkList[0].payload[buf.blkList[0].data + off];
  }
}
