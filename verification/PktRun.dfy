/** Block conservation over every run of the packet-buffer operations. */
module PktRun {
  import opened Chunks
  import opened Pktbuf
  import PktCursor

  /** One call into pktbuf.c; `k` and `j` name live buffers. */
  datatype Op =
    | Alloc(size: nat)
    | IncRef(k: nat)
    | Free(k: nat)
    | AddHeader(k: nat, size: nat, cont: bool)
    | RemoveHeader(k: nat, size: nat)
    | Resize(k: nat, size: nat)
    | SetCont(k: nat, size: nat)
    | Join(k: nat, j: nat)
    | Write(k: nat, at: nat, src: seq<Byte>)
    | Fill(k: nat, at: nat, v: Byte, size: nat)
    | Copy(k: nat, j: nat, size: nat)

  /** What a call that changes one buffer does to its chain when it can be served: `free` is the
      number of free blocks. */
  ghost predicate Did(op: Op, was: seq<Block>, free: nat, now: seq<Block>) {
    var a, b := Flat(was), Flat(now);
    match op
    case AddHeader(_, size, cont) =>
      was != [] && HeaderFits(was[0].data, free, size, cont) ==> |b| == size + |a| && b[size..] == a
    case RemoveHeader(_, size) => size <= |a| ==> b == a[size..]
    case Resize(_, size) =>
      size <= |a| || GrowFits(was, |a|, free, size) ==>
        |b| == size && b[..Min(size, |a|)] == a[..Min(size, |a|)]
    case SetCont(_, size) =>
      b == a && (was != [] && size <= |a| && size <= BLK_SIZE ==> now != [] && now[0].size >= size)
    case Write(_, at, src) => src != [] && at + |src| <= |a| ==> b == Splice(a, at, src)
    case Fill(_, at, v, size) => size > 0 && at + size <= |a| ==> b == Splice(a, at, PktCursor.Repeat(v, size))
    case _ => true
  }

  /** How often block `id` occurs in the given chains. */
  ghost function Held(chains: seq<seq<Block>>, id: nat): (r: nat) {
    if chains == [] then 0 else Count(chains[0], id) + Held(chains[1..], id)
  }

  lemma {:induction false} HeldAppend(a: seq<seq<Block>>, b: seq<seq<Block>>, id: nat)
    ensures Held(a + b, id) == Held(a, id) + Held(b, id)
  {
    if a == [] {
      assert a + b == b;
    } else {
      HeldAppend(a[1..], b, id);
      assert (a + b)[1..] == a[1..] + b;
    }
  }

  lemma {:induction false} HeldAt(chains: seq<seq<Block>>, k: nat, id: nat)
    requires k < |chains|
    ensures Held(chains, id) == Held(chains[..k], id) + Count(chains[k], id) + Held(chains[k + 1..], id)
    ensures Held(chains[..k] + chains[k + 1..], id) == Held(chains[..k], id) + Held(chains[k + 1..], id)
  {
    assert chains == chains[..k] + chains[k..];
    HeldAppend(chains[..k], chains[k..], id);
    HeldAppend(chains[..k], chains[k + 1..], id);
    assert chains[k..][1..] == chains[k + 1..];
  }

  /** Every block of the pool is in exactly one place: once in the free list, or once in the
      chain of one live buffer. */
  ghost predicate Conserved(free: seq<Block>, chains: seq<seq<Block>>, total: nat) {
    forall id: nat :: Count(free, id) + Held(chains, id) == if id < total then 1 else 0
  }

  /** Blocks moved between the free list and chain `k`. */
  lemma {:induction false} Moved(free: seq<Block>, chains: seq<seq<Block>>, total: nat,
                                 k: nat, free': seq<Block>, chain': seq<Block>)
    requires Conserved(free, chains, total) && k < |chains| && Same(free', chain', free, chains[k])
    ensures Conserved(free', chains[k := chain'], total)
  {
    var chains' := chains[k := chain'];
    forall id: nat ensures Count(free', id) + Held(chains', id) == if id < total then 1 else 0 {
      HeldAt(chains, k, id);
      HeldAt(chains', k, id);
      assert chains'[..k] == chains[..k] && chains'[k + 1..] == chains[k + 1..];
    }
  }

  /** Chain `k` went back to the free list as a whole. */
  lemma {:induction false} Released(free: seq<Block>, chains: seq<seq<Block>>, total: nat, k: nat, free': seq<Block>)
    requires Conserved(free, chains, total) && k < |chains| && Same(free', [], free, chains[k])
    ensures Conserved(free', chains[..k] + chains[k + 1..], total)
  {
    forall id: nat ensures Count(free', id) + Held(chains[..k] + chains[k + 1..], id) == if id < total then 1 else 0 {
      HeldAt(chains, k, id);
    }
  }

  /** A new chain was taken from the free list. */
  lemma {:induction false} Taken(free: seq<Block>, chains: seq<seq<Block>>, total: nat, free': seq<Block>,
                                 chain: seq<Block>)
    requires Conserved(free, chains, total) && Same(free', chain, free, [])
    ensures Conserved(free', chains + [chain], total)
  {
    forall id: nat ensures Count(free', id) + Held(chains + [chain], id) == if id < total then 1 else 0 {
      HeldAppend(chains, [chain], id);
      assert [chain][1..] == [];
    }
  }

  /** All blocks of chain `j` moved behind chain `k`. */
  lemma {:induction false} JoinedChains(free: seq<Block>, chains: seq<seq<Block>>, total: nat, k: nat, j: nat)
    requires Conserved(free, chains, total) && k < |chains| && j < |chains| && k != j
    ensures Conserved(free, chains[k := chains[k] + chains[j]][j := []], total)
  {
    var mid := chains[k := chains[k] + chains[j]];
    var end := mid[j := []];
    forall id: nat ensures Count(free, id) + Held(end, id) == if id < total then 1 else 0 {
      HeldAt(chains, k, id);
      HeldAt(mid, k, id);
      assert mid[..k] == chains[..k] && mid[k + 1..] == chains[k + 1..];
      CountAppend(chains[k], chains[j], id);
      HeldAt(mid, j, id);
      HeldAt(end, j, id);
      assert end[..j] == mid[..j] && end[j + 1..] == mid[j + 1..];
    }
  }

  /** Bytes were stored in the blocks of chain `k`. */
  lemma {:induction false} StoredChain(free: seq<Block>, chains: seq<seq<Block>>, total: nat, k: nat,
                                       chain': seq<Block>)
    requires Conserved(free, chains, total) && k < |chains| && Same1(chain', chains[k])
    ensures Conserved(free, chains[k := chain'], total)
  {
    Moved(free, chains, total, k, free, chain');
  }

  lemma {:induction false} Reordered(free: seq<Block>, chains: seq<seq<Block>>, total: nat, free': seq<Block>)
    requires Conserved(free, chains, total) && Same1(free', free)
    ensures Conserved(free', chains, total)
  {
  }

  /** What conservation means: a free block is in no chain, and no block is in two chains or
      twice in one. */
  lemma {:induction false} OnePlace(free: seq<Block>, chains: seq<seq<Block>>, total: nat, id: nat, j: nat, k: nat)
    requires Conserved(free, chains, total) && j < k < |chains|
    ensures Count(free, id) + Count(chains[j], id) + Count(chains[k], id) <= 1
  {
    HeldAt(chains, k, id);
    HeldAt(chains[..k], j, id);
    assert chains[..k][j] == chains[j];
  }

  /** The chains of a list of buffers. */
  ghost function Chains(bufs: seq<PktBuf>): (r: seq<seq<Block>>)
    reads bufs
    ensures |r| == |bufs| && forall i :: 0 <= i < |bufs| ==> r[i] == bufs[i].blkList
  {
    if bufs == [] then [] else [bufs[0].blkList] + Chains(bufs[1..])
  }

  ghost predicate Distinct(s: seq<PktBuf>) {
    forall i, j :: 0 <= i < j < |s| ==> s[i] != s[j]
  }

  /** The live buffers and the free buffers: none twice, none in both lists. */
  ghost predicate Apart(bufs: seq<PktBuf>, free: seq<PktBuf>) {
    Distinct(bufs) && Distinct(free) && forall i, j :: 0 <= i < |bufs| && 0 <= j < |free| ==> bufs[i] != free[j]
  }

  ghost predicate Within(s: seq<PktBuf>, all: set<PktBuf>) {
    forall i :: 0 <= i < |s| ==> s[i] in all
  }

  lemma {:induction false} WithinCut(s: seq<PktBuf>, all: set<PktBuf>, k: nat)
    requires Within(s, all) && k < |s|
    ensures Within(s[..k] + s[k + 1..], all)
  {
  }

  lemma {:induction false} ApartTake(bufs: seq<PktBuf>, free: seq<PktBuf>)
    requires Apart(bufs, free) && free != []
    ensures Apart(bufs + [free[0]], free[1..]) && Apart(bufs, free[1..] + [free[0]])
    ensures free[0] !in bufs
  {
  }

  lemma {:induction false} ApartGive(bufs: seq<PktBuf>, free: seq<PktBuf>, k: nat)
    requires Apart(bufs, free) && k < |bufs|
    ensures Apart(bufs[..k] + bufs[k + 1..], free + [bufs[k]])
    ensures bufs[k] !in bufs[..k] + bufs[k + 1..]
  {
  }

  ghost predicate Sound(p: PktBuf, torn: set<PktBuf>)
    reads p
  {
    p.ref >= 1 && (p !in torn ==> p.Ok())
  }

  /** The static pools of pktbuf.c together with the buffers handed out so far. */
  class Machine {
    const pool: PktPool
    var bufs: seq<PktBuf>
    ghost const total: nat
    ghost const all: set<PktBuf>
    /** Buffers that were joined to another one while still referenced: their total_size no
        longer describes their chain and no operation but pktbuf_free and pktbuf_join may be applied to them. */
    var torn: set<PktBuf>

    ghost predicate BufsOk()
      reads this, pool, bufs
    {
      && Apart(bufs, pool.pktbufList) && Within(bufs, all) && Within(pool.pktbufList, all)
      && |bufs| + |pool.pktbufList| == |all|
      && (forall i :: 0 <= i < |bufs| ==> Sound(bufs[i], torn))
    }

    ghost predicate Valid()
      reads this, pool, bufs
    {
      Conserved(pool.blockList, Chains(bufs), total) && BufsOk()
    }

    /** pktbuf_init. */
    constructor (blocks: nat, buffers: nat)
      ensures Valid() && bufs == [] && total == blocks && fresh(pool) && fresh(all)
      ensures |pool.blockList| == blocks && |pool.pktbufList| == buffers == |all|
    {
      bufs, torn, total := [], {}, blocks;
      var fresh' := [];
      ghost var made: set<PktBuf> := {};
      var i := 0;
      while i < buffers
        invariant 0 <= i <= buffers && |fresh'| == i == |made| && Distinct(fresh')
        invariant fresh(made) && forall k :: 0 <= k < i ==> fresh'[k] in made
      {
        var p := new PktBuf();
        fresh' := fresh' + [p];
        made := made + {p};
        i := i + 1;
      }
      all := made;
      pool := new PktPool();
      new;
      pool.pktbufList := fresh';
      i := 0;
      while i < blocks
        invariant 0 <= i <= blocks && |pool.blockList| == i && pool.pktbufList == fresh' && bufs == [] && torn == {}
        invariant forall id: nat :: Count(pool.blockList, id) == if id < i then 1 else 0
      {
        var b := RawBlock(i, 0, 0, seq(BLK_SIZE, k => 0));
        ChainGrows(pool.blockList, b);
        BagFirst([b]);
        pool.blockList := pool.blockList + [b];
        i := i + 1;
      }
    }

    /** The operations that change one buffer and the pool. A call is skipped only where the
        source goes wrong: a header in front of no block, more bytes removed than there are, and a
        torn buffer. */
    method Structural(op: Op)
      requires Valid() && (op.AddHeader? || op.RemoveHeader? || op.Resize? || op.SetCont? || op.Write? || op.Fill?)
      modifies pool, bufs
      ensures Valid() && bufs == old(bufs)
      ensures op.k < |bufs| && bufs[op.k] !in torn ==>
                Did(op, old(bufs[op.k].blkList), |old(pool.blockList)|, bufs[op.k].blkList)
      ensures forall i :: 0 <= i < |bufs| && i != op.k ==> bufs[i].blkList == old(bufs[i].blkList)
    {
      hide Did, Flat, Count, Held, Conserved, Apart, Within, Chains;
      if op.k >= |bufs| || bufs[op.k] in torn {
        return;
      }
      OthersApart(op.k);
      var buf := bufs[op.k];
      ghost var free, chains := pool.blockList, Chains(bufs);
      if op.Write? || op.Fill? {
        Store(op, buf);
      } else {
        Apply(op, buf);
      }
      Moved(free, chains, total, op.k, pool.blockList, buf.blkList);
      ChainsAre(bufs, chains[op.k := buf.blkList]);
    }

    method Apply(op: Op, buf: PktBuf)
      requires buf.Ok() && (op.AddHeader? || op.RemoveHeader? || op.Resize? || op.SetCont?)
      modifies pool`blockList, buf`blkList, buf`totalSize
      ensures buf.Ok() && Same(pool.blockList, buf.blkList, old(pool.blockList), old(buf.blkList))
      ensures Did(op, old(buf.blkList), |old(pool.blockList)|, buf.blkList)
    {
      hide Flat, Count;
      match op {
        case AddHeader(_, size, cont) =>
          if buf.blkList != [] {
            var _ := pool.AddHeader(buf, size, cont);
          }
        case RemoveHeader(_, size) =>
          if size <= buf.totalSize {
            var _ := pool.RemoveHeader(buf, size);
          }
        case Resize(_, size) =>
          var _ := pool.Resize(buf, size);
        case SetCont(_, size) =>
          if buf.blkList != [] || size > buf.totalSize {
            var _ := pool.SetCont(buf, size);
          }
      }
    }

    /** pktbuf_write and pktbuf_fill behind a reset and a seek: they move no block. */
    method Store(op: Op, buf: PktBuf)
      requires buf.Ok() && (op.Write? || op.Fill?)
      modifies buf`blkList, buf`pos, buf`currIdx, buf`blkOffset
      ensures buf.Ok() && Same(pool.blockList, buf.blkList, pool.blockList, old(buf.blkList))
      ensures Did(op, old(buf.blkList), |pool.blockList|, buf.blkList)
    {
      hide Flat, Count;
      ghost var chain := buf.blkList;
      ResetAcc(buf);
      PktCursor.ResetAt(buf.blkList);
      var err := PktCursor.Seek(buf, op.at);
      if err == OK {
        if op.Write? {
          var _ := PktCursor.Write(buf, op.src);
        } else {
          var _ := PktCursor.Fill(buf, op.v, op.size);
        }
      }
      PktCursor.SameShapeSameBlocks(buf.blkList, chain);
    }

    /** pktbuf_copy between the starts of two live buffers. */
    method CopyBufs(k: nat, j: nat, size: nat)
      requires Valid() && k < |bufs| && j < |bufs| && k != j && bufs[k] !in torn && bufs[j] !in torn
      modifies bufs[k], bufs[j]
      ensures Valid() && bufs[j].blkList == old(bufs[j].blkList)
      ensures var a, b := Flat(old(bufs[k].blkList)), Flat(old(bufs[j].blkList));
              size <= |a| && size <= |b| ==> Flat(bufs[k].blkList) == Splice(a, 0, b[..size])
    {
      hide Count, Flat, Held, Apart, Conserved, Within, Chains;
      ghost var chains := Chains(bufs);
      OthersApart(k);
      OthersApart(j);
      var dest, src := bufs[k], bufs[j];
      assert Sound(dest, torn) && Sound(src, torn);
      ResetAcc(dest);
      ResetAcc(src);
      PktCursor.ResetAt(dest.blkList);
      PktCursor.ResetAt(src.blkList);
      var _ := PktCursor.Copy(dest, src, size);
      PktCursor.SameShapeSameBlocks(dest.blkList, chains[k]);
      StoredChain(pool.blockList, chains, total, k, dest.blkList);
      ChainsAre(bufs, chains[k := dest.blkList]);
    }

    /** pktbuf_alloc: a buffer that is handed out again is no longer torn. */
    method AllocBuf(size: nat)
      requires Valid()
      modifies this`bufs, this`torn, pool, if pool.pktbufList == [] then {} else {pool.pktbufList[0]}
      ensures Valid()
      ensures if old(pool.pktbufList) == [] || BlocksFor(size) > |old(pool.blockList)| then bufs == old(bufs)
              else
                && |bufs| == |old(bufs)| + 1 && bufs[..|old(bufs)|] == old(bufs)
                && var b := bufs[|old(bufs)|];
                   b == old(pool.pktbufList[0]) && b.ref == 1 && |Flat(b.blkList)| == size && b !in torn
    {
      hide Count, Flat, Held, Apart, Conserved, Chains;
      ghost var free, chains := pool.blockList, Chains(bufs);
      if pool.pktbufList == [] {
        return;
      }
      ApartTake(bufs, pool.pktbufList);
      var res := pool.Alloc(size);
      if res.Some? {
        Taken(free, chains, total, pool.blockList, res.value.blkList);
        bufs := bufs + [res.value];
        torn := torn - {res.value};
        ChainsAre(bufs, chains + [res.value.blkList]);
      } else {
        Reordered(free, chains, total, pool.blockList);
        ChainsAre(bufs, chains);
      }
    }

    /** pktbuf_free on buffer `k`; the last reference removes it from the live buffers. */
    method FreeBuf(k: nat)
      requires Valid() && k < |bufs|
      modifies this`bufs, pool, bufs[k]
      ensures Valid() && torn == old(torn) && old(bufs[k]).ref == old(bufs[k].ref) - 1
      ensures bufs == if old(bufs[k].ref) == 1 then old(bufs)[..k] + old(bufs)[k + 1..] else old(bufs)
    {
      hide Count, Flat, Held, Apart, Conserved, Within, Chains;
      var buf := bufs[k];
      ghost var free, chains, list := pool.blockList, Chains(bufs), pool.pktbufList;
      OthersApart(k);
      WithinAll(k);
      pool.Free(buf);
      assert Chains(bufs) == chains;
      if buf.ref == 0 {
        Released(free, chains, total, k, pool.blockList);
        assert pool.pktbufList[..|list|] == list;
        Forget(k);
      }
    }

    /** Takes buffer `k`, whose last reference is gone, out of the live buffers. */
    method Forget(k: nat)
      requires k < |bufs| && pool.pktbufList != []
      requires Apart(bufs, pool.pktbufList[..|pool.pktbufList| - 1])
      requires bufs[k] == pool.pktbufList[|pool.pktbufList| - 1]
      requires Within(bufs, all) && Within(pool.pktbufList, all) && |bufs| + |pool.pktbufList| == |all| + 1
      requires forall i :: 0 <= i < |bufs| && i != k ==> Sound(bufs[i], torn)
      modifies this`bufs
      ensures BufsOk() && bufs == old(bufs)[..k] + old(bufs)[k + 1..]
      ensures Chains(bufs) == old(Chains(bufs))[..k] + old(Chains(bufs))[k + 1..]
    {
      hide Apart, Sound, Chains, Within;
      ghost var free, chains := pool.pktbufList[..|pool.pktbufList| - 1], Chains(bufs);
      ApartGive(bufs, free, k);
      WithinCut(bufs, all, k);
      assert pool.pktbufList == free + [bufs[k]];
      bufs := bufs[..k] + bufs[k + 1..];
      ChainsAre(bufs, chains[..k] + chains[k + 1..]);
    }

    /** The call of pktbuf_join for the live buffers `k` and `j`. */
    method JoinCall(k: nat, j: nat)
      requires Valid() && k < |bufs| && j < |bufs| && k != j
      modifies pool, bufs[k], bufs[j]
      ensures Conserved(pool.blockList, Chains(bufs), total) && bufs[j].blkList == []
      ensures bufs[k].blkList == old(bufs[k].blkList) + old(bufs[j].blkList)
      ensures bufs[j].ref == old(bufs[j].ref) - 1
      ensures pool.pktbufList == if bufs[j].ref == 0 then old(pool.pktbufList) + [bufs[j]] else old(pool.pktbufList)
      ensures forall i :: 0 <= i < |bufs| && i != j ==> Sound(bufs[i], torn)
    {
      hide Count, Flat, Held, Apart, Conserved, Within, Chains;
      ghost var chains := Chains(bufs);
      OthersApart(k);
      OthersApart(j);
      var dest, src := bufs[k], bufs[j];
      assert Sound(dest, torn) && Sound(src, torn);
      var _ := pool.Join(dest, src);
      JoinedChains(pool.blockList, chains, total, k, j);
      ChainsAre(bufs, chains[k := chains[k] + chains[j]][j := []]);
    }

    /** pktbuf_join of two live buffers. */
    method JoinBufs(k: nat, j: nat)
      requires Valid() && k < |bufs| && j < |bufs| && k != j
      modifies this`bufs, this`torn, pool, bufs[k], bufs[j]
      ensures Valid() && old(bufs[j]).ref == old(bufs[j].ref) - 1
      ensures old(bufs[k]).blkList == old(bufs[k].blkList) + old(bufs[j].blkList) && old(bufs[j]).blkList == []
      ensures bufs == if old(bufs[j].ref) == 1 then old(bufs)[..j] + old(bufs)[j + 1..] else old(bufs)
    {
      hide Count, Flat, Held, Apart, Conserved, Within, Sound, Chains;
      ghost var list := pool.pktbufList;
      WithinAll(j);
      JoinCall(k, j);
      ghost var chains := Chains(bufs);
      if bufs[j].ref == 0 {
        SameNone(pool.blockList);
        Released(pool.blockList, chains, total, j, pool.blockList);
        assert pool.pktbufList[..|list|] == list;
        Forget(j);
      } else {
        Tear(j);
      }
    }

    /** Marks buffer `j`, which is still referenced, as torn. */
    method Tear(j: nat)
      requires j < |bufs| && bufs[j].ref >= 1
      requires Apart(bufs, pool.pktbufList) && Within(bufs, all) && Within(pool.pktbufList, all)
      requires |bufs| + |pool.pktbufList| == |all|
      requires forall i :: 0 <= i < |bufs| && i != j ==> Sound(bufs[i], torn)
      modifies this`torn
      ensures BufsOk()
    {
      torn := torn + {bufs[j]};
    }

    lemma {:induction false} WithinAll(j: nat)
      requires BufsOk() && j < |bufs|
      ensures Within(pool.pktbufList + [bufs[j]], all) && bufs[j].ref >= 1
    {
    }

    lemma {:induction false} OthersApart(k: nat)
      requires BufsOk() && k < |bufs|
      ensures forall i :: 0 <= i < |bufs| && i != k ==> bufs[i] != bufs[k]
    {
    }

    /** pktbuf_inc_ref. */
    method IncRefBuf(k: nat)
      requires Valid() && k < |bufs|
      modifies bufs[k]
      ensures Valid() && bufs[k].ref == old(bufs[k].ref) + 1 && bufs[k].blkList == old(bufs[k].blkList)
    {
      hide Count, Flat, Held, Apart, Conserved, Within, Chains;
      ghost var chains := Chains(bufs);
      OthersApart(k);
      bufs[k].ref := bufs[k].ref + 1;
      ChainsAre(bufs, chains);
    }

    /** One call. Calls that name no live buffer, or that break an obligation of the caller,
        are skipped. */
    method Step(op: Op)
      requires Valid()
      modifies this`bufs, this`torn, pool, all
      ensures Valid()
      ensures op.Alloc? ==>
                var none := old(pool.pktbufList) == [] || BlocksFor(op.size) > |old(pool.blockList)|;
                |bufs| == |old(bufs)| + if none then 0 else 1
      ensures op.IncRef? && op.k < |old(bufs)| ==> bufs == old(bufs) && bufs[op.k].ref == old(bufs[op.k].ref) + 1
      ensures op.Free? && op.k < |old(bufs)| ==>
                old(bufs[op.k]).ref == old(bufs[op.k].ref) - 1 &&
                (old(bufs[op.k]) in bufs <==> old(bufs[op.k].ref) > 1)
      ensures op.Join? && op.k < |old(bufs)| && op.j < |old(bufs)| && op.k != op.j ==>
                old(bufs[op.k]).blkList == old(bufs[op.k].blkList) + old(bufs[op.j].blkList)
      ensures op.Copy? && op.k < |old(bufs)| && op.j < |old(bufs)| && op.k != op.j ==>
                var dest, src := old(bufs[op.k]), old(bufs[op.j]);
                var a, b := Flat(old(bufs[op.k].blkList)), Flat(old(bufs[op.j].blkList));
                dest !in torn && src !in torn && op.size <= |a| && op.size <= |b| ==>
                  Flat(dest.blkList) == Splice(a, 0, b[..op.size])
      ensures (op.AddHeader? || op.RemoveHeader? || op.Resize? || op.SetCont? || op.Write? || op.Fill?) &&
              op.k < |old(bufs)| && old(bufs[op.k]) !in torn ==>
                bufs == old(bufs) && Did(op, old(bufs[op.k].blkList), |old(pool.blockList)|, bufs[op.k].blkList)
    {
      hide Did, Flat, Count, Held, Conserved, Chains, Splice;
      match op {
        case Alloc(size) =>
          AllocBuf(size);
        case IncRef(k) =>
          if k < |bufs| {
            IncRefBuf(k);
          }
        case Free(k) =>
          if k < |bufs| {
            FreeBuf(k);
          }
        case Join(k, j) =>
          if k < |bufs| && j < |bufs| && k != j {
            JoinBufs(k, j);
          }
        case Copy(k, j, size) =>
          if k < |bufs| && j < |bufs| && k != j && bufs[k] !in torn && bufs[j] !in torn {
            CopyBufs(k, j, size);
          }
        case _ =>
          Structural(op);
      }
    }
  }

  lemma {:induction false} ChainsAre(bufs: seq<PktBuf>, chains: seq<seq<Block>>)
    requires |chains| == |bufs| && forall i :: 0 <= i < |bufs| ==> chains[i] == bufs[i].blkList
    ensures Chains(bufs) == chains
  {
  }

  lemma {:induction false} SameNone(free: seq<Block>)
    ensures Same(free, [], free, [])
  {
  }

  lemma {:induction false} ElementCount(s: seq<PktBuf>)
    requires Distinct(s)
    ensures |set p | p in s| == |s|
  {
    if s != [] {
      ElementCount(s[1..]);
      assert (set p | p in s) == {s[0]} + (set p | p in s[1..]);
    }
  }

  lemma {:induction false} SameSize(a: set<PktBuf>, b: set<PktBuf>)
    requires a <= b && |a| == |b|
    ensures a == b
  {
    assert b == a + (b - a);
  }

  /** No buffer is lost: each one of the pool is live or free, and not both. */
  lemma {:induction false} LiveOrFree(bufs: seq<PktBuf>, free: seq<PktBuf>, all: set<PktBuf>, p: PktBuf)
    requires Apart(bufs, free) && Within(bufs, all) && Within(free, all) && |bufs| + |free| == |all|
    ensures p in all <==> (p in bufs) != (p in free)
  {
    var a, b := set q | q in bufs, set q | q in free;
    ElementCount(bufs);
    ElementCount(free);
    assert a * b == {} && a + b <= all;
    SameSize(a + b, all);
    assert (p in a <==> p in bufs) && (p in b <==> p in free);
  }

  /** Conservation over a whole run: start with the pools of pktbuf_init and make any calls in any
      order, allocation failures included. Every block is in one place, and every buffer is live or
      free. */
  method Run(blocks: nat, buffers: nat, ops: seq<Op>) returns (m: Machine)
    ensures m.Valid() && m.total == blocks && |m.all| == buffers
    ensures forall p: PktBuf :: p in m.all <==> (p in m.bufs) != (p in m.pool.pktbufList)
  {
    m := new Machine(blocks, buffers);
    var i := 0;
    while i < |ops|
      invariant 0 <= i <= |ops| && m.Valid() && m.total == blocks && |m.all| == buffers
      invariant fresh(m) && fresh(m.pool) && fresh(m.all)
    {
      m.Step(ops[i]);
      i := i + 1;
    }
    forall p: PktBuf ensures p in m.all <==> (p in m.bufs) != (p in m.pool.pktbufList) {
      LiveOrFree(m.bufs, m.pool.pktbufList, m.all, p);
    }
  }
}
