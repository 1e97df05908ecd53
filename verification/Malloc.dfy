/** The size-class heap of glibc/memory/malloc/malloc.c: page arenas, eight lists of free blocks,
    and the rule that gives a page back. */
module Malloc {
  import opened Arith
  import opened Chunks
  import opened Lists

  const PAGE := 4096
  const HEAD := 12
  const CLASSES := 8
  const WORD := 0x1_0000_0000

  // ------------------------------------------------------------------ addresses

  /** mem_block_desc.block_size: 8, 16, ..., 1024. */
  function BlockSize(i: nat): (r: nat)
    ensures r >= 8
  {
    if i == 0 then 8 else 2 * BlockSize(i - 1)
  }

  function Quotient(n: nat, s: nat): (r: nat)
    requires s > 0
  {
    n / s
  }

  /** mem_block_desc.blocks_per_arena. */
  function PerArena(i: nat): (r: nat) {
    Quotient(PAGE - HEAD, BlockSize(i))
  }

  /** arena2block for the arena on page `p`. */
  function BlockAt(p: nat, i: nat, k: nat): (r: nat) {
    p * PAGE + HEAD + k * BlockSize(i)
  }

  /** block2arena, as a page number: the address with its low 12 bits cleared. */
  function PageOf(a: nat): (r: nat) {
    a / PAGE
  }

  function BlockIdx(a: nat, i: nat): (r: nat) {
    if a % PAGE < HEAD then 0 else Quotient(a % PAGE - HEAD, BlockSize(i))
  }

  /** `a` is one of the blocks of size class `i` on its page. */
  predicate IsBlock(a: nat, i: nat) {
    BlockIdx(a, i) < PerArena(i) && a == BlockAt(PageOf(a), i, BlockIdx(a, i))
  }

  /** A block lies behind the header of its page and does not reach into the next one. */
  lemma {:induction false} BlockInside(i: nat, k: nat)
    requires k < PerArena(i)
    ensures k * BlockSize(i) + BlockSize(i) <= PAGE - HEAD
  {
    hide BlockSize;
    MulOrder(k, PerArena(i), BlockSize(i));
  }

  /** block2arena undoes arena2block, and the blocks of a page are distinct. */
  lemma {:induction false} BlockRoundTrip(p: nat, i: nat, k: nat)
    requires k < PerArena(i)
    ensures var a := BlockAt(p, i, k);
            && PageOf(a) == p && BlockIdx(a, i) == k && IsBlock(a, i)
            && p * PAGE + HEAD <= a && a + BlockSize(i) <= (p + 1) * PAGE
  {
    hide BlockSize, PerArena;
    BlockInside(i, k);
    var a := BlockAt(p, i, k);
    assert a / PAGE == p && a % PAGE == HEAD + k * BlockSize(i);
    Exact(k, BlockSize(i));
  }

  lemma {:induction false} BlocksApart(p: nat, i: nat, k: nat, l: nat)
    requires k < l
    ensures BlockAt(p, i, k) + BlockSize(i) <= BlockAt(p, i, l)
  {
    hide BlockSize;
    MulOrder(k, l, BlockSize(i));
  }

  /** The class that _malloc picks: the smallest one that is large enough. */
  function ClassOf(size: nat): (r: nat)
    ensures size <= 1024 ==> r < CLASSES && size <= BlockSize(r) && forall j :: 0 <= j < r ==> BlockSize(j) < size
  {
    SizesAre();
    if size <= 8 then 0 else if size <= 16 then 1 else if size <= 32 then 2 else if size <= 64 then 3
    else if size <= 128 then 4 else if size <= 256 then 5 else if size <= 512 then 6 else 7
  }

  lemma {:induction false} SizesAre()
    ensures BlockSize(0) == 8 && BlockSize(1) == 16 && BlockSize(2) == 32 && BlockSize(3) == 64
    ensures BlockSize(4) == 128 && BlockSize(5) == 256 && BlockSize(6) == 512 && BlockSize(7) == 1024
  {
    assert BlockSize(2) == 2 * BlockSize(1);
    assert BlockSize(4) == 2 * BlockSize(3);
    assert BlockSize(6) == 2 * BlockSize(5);
  }

  // ------------------------------------------------------------------ the heap

  /** mem_arena; for a large one, free_cnt is its number of pages. */
  datatype Arena = Arena(large: bool, cls: nat, freeCnt: nat) {
    function Pages(): (r: nat) { if large then freeCnt else 1 }
  }

  /** The arenas by page, the free blocks of each class, and the pointers that callers hold. */
  datatype Heap = Heap(arenas: map<nat, Arena>, free: seq<seq<nat>>, live: set<nat>)

  /** All blocks of a page, in order. */
  function Blocks(p: nat, i: nat, n: nat): (r: seq<nat>)
    ensures |r| == n && forall k :: 0 <= k < n ==> r[k] == BlockAt(p, i, k)
  {
    seq(n, k requires 0 <= k => BlockAt(p, i, k))
  }

  /** A new arena whose blocks all go to the free list. */
  function Refill(h: Heap, i: nat, page: nat): (r: Heap)
    requires i < |h.free|
  {
    h.(arenas := h.arenas[page := Arena(false, i, PerArena(i))],
       free := h.free[i := h.free[i] + Blocks(page, i, PerArena(i))])
  }

  /** The first free block is handed out. */
  function Pop(h: Heap, i: nat): (r: Heap)
    requires i < |h.free| && h.free[i] != [] && PageOf(h.free[i][0]) in h.arenas &&
             h.arenas[PageOf(h.free[i][0])].freeCnt > 0
  {
    var b := h.free[i][0];
    var arena := h.arenas[PageOf(b)];
    h.(arenas := h.arenas[PageOf(b) := arena.(freeCnt := arena.freeCnt - 1)], free := h.free[i := h.free[i][1..]],
       live := h.live + {b})
  }

  /** A block comes back to its list. */
  function Push(h: Heap, a: nat): (r: Heap)
    requires PageOf(a) in h.arenas && h.arenas[PageOf(a)].cls < |h.free|
  {
    var arena := h.arenas[PageOf(a)];
    h.(arenas := h.arenas[PageOf(a) := arena.(freeCnt := arena.freeCnt + 1)],
       free := h.free[arena.cls := h.free[arena.cls] + [a]], live := h.live - {a})
  }

  /** A page is given back: its blocks are unlinked one by one. */
  function Release(h: Heap, p: nat): (r: Heap)
    requires p in h.arenas && h.arenas[p].cls < |h.free|
  {
    var i := h.arenas[p].cls;
    h.(arenas := h.arenas - {p}, free := h.free[i := Without(h.free[i], Blocks(p, i, PerArena(i)))])
  }

  /** The rule of _free: enough free blocks in the class, and none of this page in use. */
  predicate CanRelease(h: Heap, p: nat)
    requires p in h.arenas && h.arenas[p].cls < |h.free|
  {
    var i := h.arenas[p].cls;
    |h.free[i]| >= PerArena(i) * 2 && h.arenas[p].freeCnt == PerArena(i)
  }

  function NewLarge(h: Heap, page: nat, pages: nat): (r: Heap) {
    h.(arenas := h.arenas[page := Arena(true, 0, pages)], live := h.live + {page * PAGE + HEAD})
  }

  // ------------------------------------------------------------------ the invariant

  /** How many of the first `n` blocks of a page are on the list. */
  ghost function CountFree(l: seq<nat>, p: nat, i: nat, n: nat): (r: nat)
    ensures r <= n
  {
    if n == 0 then 0 else CountFree(l, p, i, n - 1) + (if BlockAt(p, i, n - 1) in l then 1 else 0)
  }

  ghost predicate OnList(h: Heap, a: nat, i: nat) {
    && PageOf(a) in h.arenas && !h.arenas[PageOf(a)].large && h.arenas[PageOf(a)].cls == i
    && IsBlock(a, i) && a !in h.live
  }

  ghost predicate ListOk(h: Heap, i: nat)
    requires i < |h.free|
  {
    NoDup(h.free[i]) && forall a: nat :: a in h.free[i] ==> OnList(h, a, i)
  }

  /** A small arena's free_cnt is the number of its blocks on the list, and every other block of
      it is in use. */
  ghost predicate ArenaOk(h: Heap, p: nat)
    requires p in h.arenas && |h.free| == CLASSES
  {
    var a := h.arenas[p];
    if a.large then a.freeCnt >= 1 && p * PAGE + HEAD in h.live
    else
      && a.cls < CLASSES && a.freeCnt == CountFree(h.free[a.cls], p, a.cls, PerArena(a.cls))
      && forall k :: 0 <= k < PerArena(a.cls) ==>
           BlockAt(p, a.cls, k) in h.free[a.cls] || BlockAt(p, a.cls, k) in h.live
  }

  ghost predicate LiveOk(h: Heap, a: nat) {
    && PageOf(a) in h.arenas
    && var arena := h.arenas[PageOf(a)]; if arena.large then a == PageOf(a) * PAGE + HEAD else IsBlock(a, arena.cls)
  }

  predicate Clear(p: nat, n: nat, q: nat, m: nat) {
    p + n <= q || q + m <= p
  }

  ghost predicate ArenasApart(h: Heap) {
    forall p, q :: p in h.arenas && q in h.arenas && p != q ==> Clear(p, h.arenas[p].Pages(), q, h.arenas[q].Pages())
  }

  ghost predicate HeapInv(h: Heap) {
    && |h.free| == CLASSES
    && (forall i :: 0 <= i < CLASSES ==> ListOk(h, i))
    && (forall p :: p in h.arenas ==> ArenaOk(h, p))
    && (forall a :: a in h.live ==> LiveOk(h, a))
    && ArenasApart(h)
  }

  /** Pages that no arena covers: what the page allocator may return. */
  ghost predicate Fresh(h: Heap, page: nat, pages: nat) {
    pages > 0 && forall p :: p in h.arenas ==> Clear(p, h.arenas[p].Pages(), page, pages)
  }

  // ------------------------------------------------------------------ counting

  lemma {:induction false} CountSame(l: seq<nat>, m: seq<nat>, p: nat, i: nat, n: nat)
    requires n <= PerArena(i) && forall a: nat :: PageOf(a) == p ==> (a in l <==> a in m)
    ensures CountFree(l, p, i, n) == CountFree(m, p, i, n)
  {
    hide BlockAt, PerArena, PageOf, BlockSize;
    if n > 0 {
      CountSame(l, m, p, i, n - 1);
      BlockRoundTrip(p, i, n - 1);
    }
  }

  /** One more block of the page on the list. */
  lemma {:induction false} CountMore(l: seq<nat>, m: seq<nat>, p: nat, i: nat, n: nat, b: nat)
    requires n <= PerArena(i) && IsBlock(b, i) && PageOf(b) == p && b !in l && b in m
    requires forall a: nat :: PageOf(a) == p && a != b ==> (a in l <==> a in m)
    ensures CountFree(m, p, i, n) == CountFree(l, p, i, n) + (if BlockIdx(b, i) < n then 1 else 0)
  {
    hide BlockAt, PerArena, PageOf, BlockSize, BlockIdx;
    if n > 0 {
      CountMore(l, m, p, i, n - 1, b);
      BlockRoundTrip(p, i, n - 1);
    }
  }

  lemma {:induction false} CountAll(l: seq<nat>, p: nat, i: nat, n: nat)
    ensures CountFree(l, p, i, n) == n <==> forall k :: 0 <= k < n ==> BlockAt(p, i, k) in l
  {
    hide BlockAt;
    if n > 0 {
      CountAll(l, p, i, n - 1);
    }
  }

  lemma {:induction false} CountSome(l: seq<nat>, i: nat, n: nat, b: nat)
    requires n <= PerArena(i) && IsBlock(b, i) && b in l && BlockIdx(b, i) < n
    ensures CountFree(l, PageOf(b), i, n) > 0
  {
    hide BlockAt, PerArena, PageOf, BlockSize, BlockIdx;
    if BlockIdx(b, i) < n - 1 {
      CountSome(l, i, n - 1, b);
    } else {
    }
  }

  // ------------------------------------------------------------------ a new arena

  lemma {:induction false} BlocksNoDup(p: nat, i: nat, n: nat)
    requires n <= PerArena(i)
    ensures NoDup(Blocks(p, i, n)) && forall a: nat :: a in Blocks(p, i, n) ==> PageOf(a) == p && IsBlock(a, i)
  {
    hide PerArena, BlockAt, PageOf, IsBlock;
    var b := Blocks(p, i, n);
    forall k, l | 0 <= k < l < n ensures b[k] != b[l] {
      BlockRoundTrip(p, i, k);
      BlockRoundTrip(p, i, l);
    }
    forall a: nat | a in b ensures PageOf(a) == p && IsBlock(a, i) {
      var k :| 0 <= k < n && b[k] == a;
      BlockRoundTrip(p, i, k);
    }
  }

  lemma {:induction false} FreshNew(h: Heap, page: nat, pages: nat)
    requires HeapInv(h) && Fresh(h, page, pages)
    ensures page !in h.arenas
  {
    hide ListOk, PerArena, BlockAt, CountFree;
    assert page in h.arenas ==> ArenaOk(h, page);
  }

  lemma {:induction false} RefillLists(h: Heap, i: nat, page: nat, j: nat)
    requires HeapInv(h) && i < CLASSES && j < CLASSES && h.free[i] == [] && Fresh(h, page, 1)
    ensures ListOk(Refill(h, i, page), j)
  {
    hide PerArena, BlockAt, PageOf, IsBlock, CountFree, NoDup, Blocks;
    var r := Refill(h, i, page);
    assert ListOk(h, j);
    FreshNew(h, page, 1);
    BlocksNoDup(page, i, PerArena(i));
    assert j == i ==> r.free[j] == Blocks(page, i, PerArena(i));
    forall a: nat | a in r.free[j] ensures OnList(r, a, j) {
      if j == i {
        FreshLive(h, page, a);
      } else {
        assert OnList(h, a, j);
      }
    }
  }

  /** Nobody holds a pointer into a page without an arena. */
  lemma {:induction false} FreshLive(h: Heap, page: nat, a: nat)
    requires HeapInv(h) && page !in h.arenas && PageOf(a) == page
    ensures a !in h.live
  {
    hide ListOk, ArenaOk, ArenasApart, PageOf;
    assert a in h.live ==> LiveOk(h, a);
  }

  lemma {:induction false} RefillArena(h: Heap, i: nat, page: nat, q: nat)
    requires HeapInv(h) && i < CLASSES && h.free[i] == [] && Fresh(h, page, 1) && q in Refill(h, i, page).arenas
    ensures ArenaOk(Refill(h, i, page), q)
  {
    hide PerArena, BlockAt, PageOf, IsBlock, CountFree, NoDup;
    var r := Refill(h, i, page);
    var b := Blocks(page, i, PerArena(i));
    FreshNew(h, page, 1);
    assert r.free[i] == b;
    if q == page {
      forall k | 0 <= k < PerArena(i) ensures BlockAt(page, i, k) in b {
        assert b[k] in b;
      }
      CountAll(b, page, i, PerArena(i));
    } else {
      assert ArenaOk(h, q);
      if !h.arenas[q].large && h.arenas[q].cls == i {
        BlocksNoDup(page, i, PerArena(i));
        CountSame([], b, q, i, PerArena(i));
      }
    }
  }

  lemma {:induction false} RefillInv(h: Heap, i: nat, page: nat)
    requires HeapInv(h) && i < CLASSES && h.free[i] == [] && Fresh(h, page, 1)
    ensures HeapInv(Refill(h, i, page))
  {
    hide ListOk, ArenaOk, PerArena, Blocks, PageOf, IsBlock;
    var r := Refill(h, i, page);
    FreshNew(h, page, 1);
    forall j | 0 <= j < CLASSES ensures ListOk(r, j) {
      RefillLists(h, i, page, j);
    }
    forall q | q in r.arenas ensures ArenaOk(r, q) {
      RefillArena(h, i, page, q);
    }
    forall a | a in r.live ensures LiveOk(r, a) {
      assert LiveOk(h, a);
    }
  }

  // ------------------------------------------------------------------ handing out and taking back

  /** Blocks of different classes are on different pages. */
  lemma {:induction false} PopLists(h: Heap, i: nat, j: nat)
    requires HeapInv(h) && i < CLASSES && j < CLASSES && h.free[i] != []
    requires PageOf(h.free[i][0]) in h.arenas && h.arenas[PageOf(h.free[i][0])].freeCnt > 0
    ensures ListOk(Pop(h, i), j)
  {
    hide PerArena, BlockAt, PageOf, IsBlock, CountFree, NoDup;
    var r, b := Pop(h, i), h.free[i][0];
    assert ListOk(h, j) && ListOk(h, i) && b in h.free[i];
    PopFacts(h.free[i]);
    forall a: nat | a in r.free[j] ensures OnList(r, a, j) {
      assert OnList(h, a, j) && OnList(h, b, i);
    }
  }

  lemma {:induction false} PopArena(h: Heap, i: nat, q: nat)
    requires HeapInv(h) && i < CLASSES && h.free[i] != [] && q in h.arenas
    requires PageOf(h.free[i][0]) in h.arenas && h.arenas[PageOf(h.free[i][0])].freeCnt > 0
    ensures ArenaOk(Pop(h, i), q)
  {
    hide PerArena, BlockAt, PageOf, CountFree, NoDup, BlockIdx;
    var r, b := Pop(h, i), h.free[i][0];
    assert ArenaOk(h, q) && ListOk(h, i) && b in h.free[i];
    assert OnList(h, b, i);
    PopFacts(h.free[i]);
    if !h.arenas[q].large && h.arenas[q].cls == i {
      if q == PageOf(b) {
        CountMore(r.free[i], h.free[i], q, i, PerArena(i), b);
      } else {
        CountSame(r.free[i], h.free[i], q, i, PerArena(i));
      }
    }
  }

  /** A block on a list leaves its arena with a positive count. */
  lemma {:induction false} PopDefined(h: Heap, i: nat)
    requires HeapInv(h) && i < CLASSES && h.free[i] != []
    ensures PageOf(h.free[i][0]) in h.arenas && h.arenas[PageOf(h.free[i][0])].freeCnt > 0
  {
    hide PerArena, BlockAt, PageOf, CountFree, NoDup, BlockIdx;
    var b := h.free[i][0];
    assert ListOk(h, i) && b in h.free[i];
    assert OnList(h, b, i) && ArenaOk(h, PageOf(b));
    CountSome(h.free[i], i, PerArena(i), b);
  }

  lemma {:induction false} PopInv(h: Heap, i: nat)
    requires HeapInv(h) && i < CLASSES && h.free[i] != []
    ensures PageOf(h.free[i][0]) in h.arenas && h.arenas[PageOf(h.free[i][0])].freeCnt > 0
    ensures HeapInv(Pop(h, i)) && h.free[i][0] !in h.live
  {
    hide ArenaOk, PerArena, PageOf, IsBlock, NoDup;
    PopDefined(h, i);
    var r, b := Pop(h, i), h.free[i][0];
    assert ListOk(h, i) && b in h.free[i];
    assert OnList(h, b, i);
    forall j | 0 <= j < CLASSES ensures ListOk(r, j) {
      PopLists(h, i, j);
    }
    forall q | q in r.arenas ensures ArenaOk(r, q) {
      PopArena(h, i, q);
    }
    forall a | a in r.live ensures LiveOk(r, a) {
      assert a != b ==> LiveOk(h, a);
    }
  }

  lemma {:induction false} PushLists(h: Heap, a: nat, j: nat)
    requires HeapInv(h) && a in h.live && j < CLASSES && PageOf(a) in h.arenas && !h.arenas[PageOf(a)].large
    requires h.arenas[PageOf(a)].cls < CLASSES
    ensures ListOk(Push(h, a), j)
  {
    hide PerArena, BlockAt, PageOf, IsBlock, CountFree, NoDup;
    var r, i := Push(h, a), h.arenas[PageOf(a)].cls;
    assert ListOk(h, j) && ListOk(h, i) && LiveOk(h, a);
    assert a in h.free[i] ==> OnList(h, a, i);
    PushFacts(h.free[i], a);
    forall b: nat | b in r.free[j] ensures OnList(r, b, j) {
      if b != a {
        assert OnList(h, b, j);
      }
    }
  }

  /** Its own page apart, a pointer is no block of an arena. */
  lemma {:induction false} OtherPage(a: nat, q: nat, i: nat)
    requires PageOf(a) != q
    ensures forall k :: 0 <= k < PerArena(i) ==> BlockAt(q, i, k) != a
    ensures q * PAGE + HEAD != a
  {
    hide PerArena, BlockAt, PageOf;
    LargePage(q);
    forall k | 0 <= k < PerArena(i) ensures BlockAt(q, i, k) != a {
      BlockRoundTrip(q, i, k);
    }
  }

  lemma {:induction false} PushArena(h: Heap, a: nat, q: nat)
    requires HeapInv(h) && a in h.live && q in h.arenas && PageOf(a) in h.arenas && !h.arenas[PageOf(a)].large
    requires h.arenas[PageOf(a)].cls < CLASSES
    ensures ArenaOk(Push(h, a), q)
  {
    hide PerArena, BlockAt, PageOf, CountFree, NoDup, BlockIdx;
    var r, i := Push(h, a), h.arenas[PageOf(a)].cls;
    assert ArenaOk(h, q) && ListOk(h, i) && LiveOk(h, a);
    assert a in h.free[i] ==> OnList(h, a, i);
    PushFacts(h.free[i], a);
    if q == PageOf(a) {
      CountMore(h.free[i], r.free[i], q, i, PerArena(i), a);
    } else {
      OtherPage(a, q, h.arenas[q].cls);
      if h.arenas[q].cls == i {
        CountSame(h.free[i], r.free[i], q, i, PerArena(i));
      }
    }
  }

  lemma {:induction false} LargePage(q: nat)
    ensures PageOf(q * PAGE + HEAD) == q
  {
  }

  lemma {:induction false} PushDefined(h: Heap, a: nat)
    requires HeapInv(h) && a in h.live
    ensures PageOf(a) in h.arenas && (!h.arenas[PageOf(a)].large ==> h.arenas[PageOf(a)].cls < CLASSES)
  {
    hide ListOk, PerArena, PageOf, IsBlock;
    assert LiveOk(h, a);
    assert ArenaOk(h, PageOf(a));
  }

  lemma {:induction false} PushInv(h: Heap, a: nat)
    requires HeapInv(h) && a in h.live && PageOf(a) in h.arenas && !h.arenas[PageOf(a)].large
    requires h.arenas[PageOf(a)].cls < CLASSES
    ensures HeapInv(Push(h, a))
  {
    hide ArenaOk, ListOk, PerArena, PageOf, IsBlock;
    var r := Push(h, a);
    forall j | 0 <= j < CLASSES ensures ListOk(r, j) {
      PushLists(h, a, j);
    }
    forall q | q in r.arenas ensures ArenaOk(r, q) {
      PushArena(h, a, q);
    }
    forall b | b in r.live ensures LiveOk(r, b) {
      assert LiveOk(h, b);
    }
  }

  // ------------------------------------------------------------------ giving a page back

  /** When free_cnt says so, all blocks of the page are on the list. */
  lemma {:induction false} PageFree(h: Heap, p: nat)
    requires HeapInv(h) && p in h.arenas && !h.arenas[p].large && h.arenas[p].freeCnt == PerArena(h.arenas[p].cls)
    ensures h.arenas[p].cls < CLASSES
    ensures forall x: nat :: x in Blocks(p, h.arenas[p].cls, PerArena(h.arenas[p].cls)) ==> x in h.free[h.arenas[p].cls]
  {
    hide PerArena, BlockAt, PageOf, CountFree, NoDup, ListOk;
    assert ArenaOk(h, p);
    var i := h.arenas[p].cls;
    CountAll(h.free[i], p, i, PerArena(i));
  }

  /** What is left on the list: the blocks of other pages. */
  lemma {:induction false} ReleaseList(h: Heap, p: nat)
    requires HeapInv(h) && p in h.arenas && !h.arenas[p].large && h.arenas[p].freeCnt == PerArena(h.arenas[p].cls)
    ensures var i := h.arenas[p].cls;
            && i < CLASSES && NoDup(Release(h, p).free[i])
            && |Release(h, p).free[i]| == |h.free[i]| - PerArena(i)
            && forall x: nat :: x in Release(h, p).free[i] <==> x in h.free[i] && PageOf(x) != p
  {
    hide PerArena, PageOf, CountFree, NoDup, Without, Blocks, BlockAt, BlockIdx;
    PageFree(h, p);
    var i := h.arenas[p].cls;
    var b := Blocks(p, i, PerArena(i));
    assert ListOk(h, i);
    BlocksNoDup(p, i, PerArena(i));
    WithoutFacts(h.free[i], b);
    forall x: nat | x in h.free[i] && PageOf(x) == p ensures x in b {
      assert OnList(h, x, i);
      assert b[BlockIdx(x, i)] == x by { BlockListed(p, i, x); }
    }
  }

  lemma {:induction false} BlockListed(p: nat, i: nat, x: nat)
    requires IsBlock(x, i) && PageOf(x) == p
    ensures BlockIdx(x, i) < |Blocks(p, i, PerArena(i))| && Blocks(p, i, PerArena(i))[BlockIdx(x, i)] == x
  {
    hide PerArena, BlockAt, BlockIdx, PageOf;
  }

  /** Nobody holds a pointer into a page whose blocks are all free. */
  lemma {:induction false} NoneLive(h: Heap, p: nat, a: nat)
    requires HeapInv(h) && p in h.arenas && !h.arenas[p].large && h.arenas[p].freeCnt == PerArena(h.arenas[p].cls)
    requires PageOf(a) == p
    ensures a !in h.live
  {
    hide PerArena, PageOf, CountFree, NoDup, Blocks, BlockIdx, BlockAt;
    PageFree(h, p);
    var i := h.arenas[p].cls;
    assert ListOk(h, i);
    assert a in h.free[i] ==> OnList(h, a, i);
    assert a in h.live ==> LiveOk(h, a);
    if IsBlock(a, i) {
      BlockListed(p, i, a);
      assert a in Blocks(p, i, PerArena(i));
    }
  }

  lemma {:induction false} ReleaseLists(h: Heap, p: nat, j: nat)
    requires HeapInv(h) && p in h.arenas && !h.arenas[p].large && h.arenas[p].freeCnt == PerArena(h.arenas[p].cls) &&
             j < CLASSES
    requires h.arenas[p].cls < CLASSES
    ensures ListOk(Release(h, p), j)
  {
    hide PerArena, PageOf, CountFree, NoDup, Without, Blocks, IsBlock;
    ReleaseList(h, p);
    var r := Release(h, p);
    assert ListOk(h, j);
    forall a: nat | a in r.free[j] ensures OnList(r, a, j) {
      assert OnList(h, a, j);
    }
  }

  lemma {:induction false} ReleaseArena(h: Heap, p: nat, q: nat)
    requires HeapInv(h) && p in h.arenas && !h.arenas[p].large && h.arenas[p].freeCnt == PerArena(h.arenas[p].cls)
    requires h.arenas[p].cls < CLASSES && q in h.arenas && q != p
    ensures ArenaOk(Release(h, p), q)
  {
    hide PerArena, PageOf, CountFree, NoDup, Without, Blocks, IsBlock, BlockAt, ListOk;
    ReleaseList(h, p);
    var r, i := Release(h, p), h.arenas[p].cls;
    assert ArenaOk(h, q);
    if !h.arenas[q].large && h.arenas[q].cls == i {
      CountSame(h.free[i], r.free[i], q, i, PerArena(i));
      forall k | 0 <= k < PerArena(i) ensures BlockAt(q, i, k) in r.free[i] || BlockAt(q, i, k) in r.live {
        BlockRoundTrip(q, i, k);
      }
    }
  }

  /** A page is given back only without live blocks; none of its blocks stays on the list, and
      the class keeps the blocks of at least one arena. */
  lemma {:induction false} ReleaseInv(h: Heap, p: nat)
    requires HeapInv(h) && p in h.arenas && !h.arenas[p].large && h.arenas[p].cls < CLASSES && CanRelease(h, p)
    ensures HeapInv(Release(h, p))
    ensures forall a: nat :: PageOf(a) == p ==> a !in h.live && a !in Release(h, p).free[h.arenas[p].cls]
    ensures |Release(h, p).free[h.arenas[p].cls]| >= PerArena(h.arenas[p].cls)
  {
    hide ListOk, ArenaOk, PerArena, PageOf, Without, Blocks, IsBlock;
    var r := Release(h, p);
    ReleaseList(h, p);
    forall j | 0 <= j < CLASSES ensures ListOk(r, j) {
      ReleaseLists(h, p, j);
    }
    forall q | q in r.arenas ensures ArenaOk(r, q) {
      ReleaseArena(h, p, q);
    }
    forall a: nat | PageOf(a) == p ensures a !in h.live {
      NoneLive(h, p, a);
    }
    forall a | a in r.live ensures LiveOk(r, a) {
      assert LiveOk(h, a);
    }
  }

  /** Every removal of the unlinking loop finds its block on the list, so `remove` of list.c, which
      trusts the links of its node, leaves the list intact. */
  lemma {:induction false} UnlinksMembers(h: Heap, p: nat, k: nat)
    requires HeapInv(h) && p in h.arenas && !h.arenas[p].large && h.arenas[p].freeCnt == PerArena(h.arenas[p].cls)
    requires k < PerArena(h.arenas[p].cls)
    ensures var i := h.arenas[p].cls;
            && i < |h.free| && BlockAt(p, i, k) in Without(h.free[i], Blocks(p, i, k))
            && NoDup(Without(h.free[i], Blocks(p, i, k)))
  {
    hide PerArena, PageOf, CountFree, NoDup, Without, Blocks, BlockAt, BlockIdx;
    PageFree(h, p);
    var i := h.arenas[p].cls;
    var b := Blocks(p, i, k);
    assert ListOk(h, i);
    BlocksNoDup(p, i, k);
    WithoutFacts(h.free[i], b);
    NotBefore(p, i, k);
  }

  lemma {:induction false} NotBefore(p: nat, i: nat, k: nat)
    requires i < CLASSES && k < PerArena(i)
    ensures BlockAt(p, i, k) !in Blocks(p, i, k)
  {
    hide PerArena, BlockAt;
    BlocksNoDup(p, i, k + 1);
    var b := Blocks(p, i, k + 1);
    assert b[k] == BlockAt(p, i, k) && forall j :: 0 <= j < k ==> b[j] == Blocks(p, i, k)[j];
  }

  /** And what _free pushes is not on the list. */
  lemma {:induction false} PushesNew(h: Heap, a: nat)
    requires HeapInv(h) && a in h.live && PageOf(a) in h.arenas && !h.arenas[PageOf(a)].large
    ensures h.arenas[PageOf(a)].cls < |h.free| && a !in h.free[h.arenas[PageOf(a)].cls]
  {
    hide PerArena, PageOf, CountFree, NoDup, IsBlock, BlockAt;
    assert ArenaOk(h, PageOf(a));
    var i := h.arenas[PageOf(a)].cls;
    assert ListOk(h, i);
    assert a in h.free[i] ==> OnList(h, a, i);
  }

  // ------------------------------------------------------------------ large blocks

  /** A list is untouched by an arena that appears or goes away elsewhere. */
  lemma {:induction false} ListFrame(h: Heap, r: Heap, j: nat, page: nat)
    requires j < |h.free| && ListOk(h, j) && r.free == h.free
    requires forall q :: q in h.arenas && q != page ==> q in r.arenas && r.arenas[q] == h.arenas[q]
    requires forall a: nat :: PageOf(a) != page && a in r.live ==> a in h.live
    requires forall a: nat :: a in h.free[j] ==> PageOf(a) != page
    ensures ListOk(r, j)
  {
    hide PageOf, IsBlock, NoDup;
    forall a: nat | a in r.free[j] ensures OnList(r, a, j) {
      assert OnList(h, a, j);
    }
  }

  /** The blocks on the lists are not on a page without a small arena. */
  lemma {:induction false} ListsElsewhere(h: Heap, j: nat, page: nat)
    requires j < |h.free| && ListOk(h, j) && (page !in h.arenas || h.arenas[page].large)
    ensures forall a: nat :: a in h.free[j] ==> PageOf(a) != page
  {
    hide PageOf, IsBlock, NoDup;
    forall a: nat | a in h.free[j] ensures PageOf(a) != page {
      assert OnList(h, a, j);
    }
  }

  lemma {:induction false} LargeInv(h: Heap, page: nat, pages: nat)
    requires HeapInv(h) && Fresh(h, page, pages)
    ensures HeapInv(NewLarge(h, page, pages)) && page * PAGE + HEAD !in h.live
  {
    hide PerArena, PageOf, IsBlock, BlockAt, CountFree, ListOk;
    var r := NewLarge(h, page, pages);
    FreshNew(h, page, pages);
    LargePage(page);
    FreshLive(h, page, page * PAGE + HEAD);
    forall j | 0 <= j < CLASSES ensures ListOk(r, j) {
      ListsElsewhere(h, j, page);
      ListFrame(h, r, j, page);
    }
    forall q | q in r.arenas ensures ArenaOk(r, q) {
      assert q != page ==> ArenaOk(h, q);
    }
    hide ArenaOk;
    forall a | a in r.live ensures LiveOk(r, a) {
      assert a in h.live ==> LiveOk(h, a);
    }
  }

  function DropLarge(h: Heap, a: nat): (r: Heap) {
    h.(arenas := h.arenas - {PageOf(a)}, live := h.live - {a})
  }

  lemma {:induction false} DropInv(h: Heap, a: nat)
    requires HeapInv(h) && a in h.live && PageOf(a) in h.arenas && h.arenas[PageOf(a)].large
    ensures HeapInv(DropLarge(h, a))
  {
    hide PerArena, PageOf, IsBlock, CountFree, BlockAt, ListOk, ArenaOk;
    var r, p := DropLarge(h, a), PageOf(a);
    forall j | 0 <= j < CLASSES ensures ListOk(r, j) {
      ListsElsewhere(h, j, p);
      ListFrame(h, r, j, p);
    }
    forall q | q in r.arenas ensures ArenaOk(r, q) {
      DropArena(h, a, q);
    }
    forall b | b in r.live ensures LiveOk(r, b) {
      assert LiveOk(h, b) && LiveOk(h, a);
    }
  }

  lemma {:induction false} DropArena(h: Heap, a: nat, q: nat)
    requires |h.free| == CLASSES && q in h.arenas && q != PageOf(a) && ArenaOk(h, q)
    ensures ArenaOk(DropLarge(h, a), q)
  {
    hide PerArena, PageOf, CountFree, BlockAt;
    OtherPage(a, q, h.arenas[q].cls);
  }

  // ------------------------------------------------------------------ malloc and free

  /** The pages of a large block with its header. */
  function PagesFor(size: nat): (r: nat)
    ensures r > 0 && (r - 1) * PAGE < size + HEAD <= r * PAGE
  {
    (size + HEAD + PAGE - 1) / PAGE
  }

  function PagesNeeded(size: nat): (r: nat)
    ensures r > 0
  {
    if size > 1024 then PagesFor(size) else 1
  }

  /** What up2(size + sizeof(mem_arena), 4096) / 4096 gives in 32 bits. */
  function PagesAsked(size: nat): (r: nat)
    requires size < WORD
  {
    var sum := (size + HEAD) % WORD;
    var up := if sum % PAGE == 0 then sum else (sum - sum % PAGE + PAGE) % WORD;
    up / PAGE
  }

  /** The arithmetic wraps for the last sizes. */
  predicate Wraps(size: nat) {
    WORD - PAGE < size + HEAD
  }

  /** A large block gets the pages it needs if and only if nothing wraps; otherwise it gets one page
      or none. */
  lemma {:induction false} PagesAskedIff(size: nat)
    requires size < WORD
    ensures PagesAsked(size) == PagesFor(size) <==> !Wraps(size)
    ensures Wraps(size) ==> PagesAsked(size) <= 1 && PAGE < size
  {
    var sum := size + HEAD;
    if sum < WORD {
      hide PagesFor;
      NoCarry(sum);
    } else {
      assert sum % WORD == sum - WORD < HEAD;
    }
  }

  /** up2 of a sum that fits 32 bits. */
  lemma {:induction false} NoCarry(sum: nat)
    requires 0 < sum < WORD
    ensures var up := if sum % PAGE == 0 then sum else (sum - sum % PAGE + PAGE) % WORD;
            up / PAGE == (if sum <= WORD - PAGE then (sum + PAGE - 1) / PAGE else 0)
    ensures sum > WORD - PAGE ==> (sum + PAGE - 1) / PAGE == WORD / PAGE
  {
    var q, m := sum / PAGE, sum % PAGE;
    assert sum == q * PAGE + m;
    if m > 0 {
      assert sum - m + PAGE == (q + 1) * PAGE;
    }
  }

  /** A request for all but eleven bytes of the address space gets one page. */
  lemma {:induction false} AlmostAll()
    ensures PagesAsked(WORD - 11) == 1
  {
  }

  /** _malloc, where the page allocator returns `page` if it is asked. */
  function Malloc(h: Heap, size: nat, page: nat): (r: (Heap, nat))
    requires HeapInv(h) && Fresh(h, page, PagesNeeded(size))
    ensures HeapInv(r.0) && r.1 !in h.live && r.0.live == h.live + {r.1}
    ensures PageOf(r.1) in r.0.arenas && size <= SizeOf(r.0, r.1)
  {
    if size > 1024 then
      LargeInv(h, page, PagesFor(size));
      LargePage(page);
      (NewLarge(h, page, PagesFor(size)), page * PAGE + HEAD)
    else
      var i := ClassOf(size);
      if h.free[i] == [] then
        RefillInv(h, i, page);
        PerArenaPositive(i);
        Popped(Refill(h, i, page), i);
        (Pop(Refill(h, i, page), i), BlockAt(page, i, 0))
      else
        Popped(h, i);
        (Pop(h, i), h.free[i][0])
  }

  /** The bytes that the holder of a pointer may use. */
  function SizeOf(h: Heap, a: nat): (r: nat)
    requires PageOf(a) in h.arenas
  {
    var arena := h.arenas[PageOf(a)];
    if !arena.large then BlockSize(arena.cls) else if arena.freeCnt == 0 then 0 else arena.freeCnt * PAGE - HEAD
  }

  lemma {:induction false} PerArenaPositive(i: nat)
    requires i < CLASSES
    ensures PerArena(i) > 0
  {
    SizesAre();
    assert BlockSize(i) <= 1024;
    hide BlockSize;
    assert Quotient(PAGE - HEAD, BlockSize(i)) >= 1 by {
      QuotientPositive(PAGE - HEAD, BlockSize(i));
    }
  }

  lemma {:induction false} QuotientPositive(n: nat, s: nat)
    requires 0 < s <= n
    ensures n / s >= 1
  {
    assert n == (n / s) * s + n % s;
  }

  lemma {:induction false} Popped(h: Heap, i: nat)
    requires HeapInv(h) && i < CLASSES && h.free[i] != []
    ensures PageOf(h.free[i][0]) in h.arenas && h.arenas[PageOf(h.free[i][0])].freeCnt > 0
    ensures HeapInv(Pop(h, i)) && h.free[i][0] !in h.live
    ensures SizeOf(Pop(h, i), h.free[i][0]) == BlockSize(i)
  {
    PopInv(h, i);
    hide PageOf, IsBlock, NoDup, BlockSize, ArenaOk;
    var b := h.free[i][0];
    assert ListOk(h, i) && b in h.free[i];
    assert OnList(h, b, i);
  }

  /** _free of NULL, of a large block or of a small one. */
  function Free(h: Heap, a: nat): (r: Heap)
    requires HeapInv(h) && (a == 0 || a in h.live)
    ensures HeapInv(r) && r.live == h.live - {a}
  {
    if a == 0 then NullNotLive(h); h
    else
      PushDefined(h, a);
      var p := PageOf(a);
      if h.arenas[p].large then DropInv(h, a); DropLarge(h, a)
      else
        PushInv(h, a);
        var q := Push(h, a);
        if CanRelease(q, p) then ReleaseInv(q, p); Release(q, p) else q
  }

  lemma {:induction false} NullNotLive(h: Heap)
    requires HeapInv(h)
    ensures 0 !in h.live
  {
    hide ListOk, ArenaOk, PerArena, BlockSize;
    assert 0 in h.live ==> LiveOk(h, 0);
  }

  // ------------------------------------------------------------------ when pages come and go

  /** A page is asked for if and only if the block is large or its class has no free block; only the
      list of that class changes, and it is served from its front: the block that has been free for
      longest. A new page adds its blocks in the order of their addresses. */
  lemma {:induction false} NewPageIff(h: Heap, size: nat, page: nat)
    requires HeapInv(h) && Fresh(h, page, PagesNeeded(size))
    ensures var (r, ptr) := Malloc(h, size, page);
            && |r.free| == |h.free| == CLASSES && page !in h.arenas
            && (page in r.arenas <==> size > 1024 || h.free[ClassOf(size)] == [])
            && (size > 1024 ==> r.free == h.free && ptr == page * PAGE + HEAD)
            && (size <= 1024 ==>
                  var i := ClassOf(size);
                  && r.free == h.free[i := r.free[i]]
                  && (h.free[i] != [] ==> h.free[i] == [ptr] + r.free[i])
                  && (h.free[i] == [] ==> [ptr] + r.free[i] == Blocks(page, i, PerArena(i))))
  {
    FreshNew(h, page, PagesNeeded(size));
    ListCount(h);
    hide HeapInv, Fresh, SizeOf, BlockSize, PerArena, PageOf, Refill, Pop;
    if size <= 1024 {
      var i := ClassOf(size);
      if h.free[i] == [] {
        FromNewPage(h, i, page);
      } else {
        FromList(h, i);
      }
    }
  }

  lemma {:induction false} FromList(h: Heap, i: nat)
    requires HeapInv(h) && i < CLASSES && h.free[i] != []
    ensures PageOf(h.free[i][0]) in h.arenas && h.arenas[PageOf(h.free[i][0])].freeCnt > 0
    ensures var r := Pop(h, i);
            && r.free == h.free[i := r.free[i]] && h.free[i] == [h.free[i][0]] + r.free[i]
            && r.arenas.Keys == h.arenas.Keys
  {
    hide HeapInv, PageOf, Pop, SizeOf, BlockSize;
    ListCount(h);
    Popped(h, i);
    PopIs(h, i);
  }

  lemma {:induction false} PopIs(h: Heap, i: nat)
    requires i < |h.free| && h.free[i] != [] && PageOf(h.free[i][0]) in h.arenas
    requires h.arenas[PageOf(h.free[i][0])].freeCnt > 0
    ensures var r := Pop(h, i);
            && r.free == h.free[i := r.free[i]] && h.free[i] == [h.free[i][0]] + r.free[i]
            && r.arenas.Keys == h.arenas.Keys
  {
    hide PageOf;
    assert h.free[i] == [h.free[i][0]] + h.free[i][1..];
  }

  lemma {:induction false} FromNewPage(h: Heap, i: nat, page: nat)
    requires HeapInv(h) && i < CLASSES && h.free[i] == [] && Fresh(h, page, 1)
    ensures var n := Refill(h, i, page);
            && HeapInv(n) && n.free[i] != [] && PageOf(n.free[i][0]) in n.arenas
            && n.arenas[PageOf(n.free[i][0])].freeCnt > 0
            && var r := Pop(n, i);
               && r.free == h.free[i := r.free[i]] && page in r.arenas
               && [BlockAt(page, i, 0)] + r.free[i] == Blocks(page, i, PerArena(i))
  {
    hide HeapInv, PageOf, PerArena, BlockAt, Fresh, Pop, SizeOf, BlockSize;
    RefillInv(h, i, page);
    PerArenaPositive(i);
    ListCount(h);
    var n, b := Refill(h, i, page), Blocks(page, i, PerArena(i));
    assert n.free[i] == [] + b == b;
    FromList(n, i);
  }

  /** A block that comes back goes to the end of its list. Its page goes back if and only if it is
      large, or nothing else on it is held and the class then has the free blocks of two pages. */
  lemma {:induction false} ReleasedIff(h: Heap, a: nat)
    requires HeapInv(h) && a in h.live
    ensures var p := PageOf(a);
            && p in h.arenas
            && (p !in Free(h, a).arenas <==>
                  h.arenas[p].large ||
                  (h.arenas[p].cls < |h.free| && |h.free[h.arenas[p].cls]| + 1 >= 2 * PerArena(h.arenas[p].cls) &&
                   forall b: nat :: b in h.live && b != a ==> PageOf(b) != p))
            && (p in Free(h, a).arenas ==>
                  h.arenas[p].cls < |h.free| &&
                  Free(h, a).free == h.free[h.arenas[p].cls := h.free[h.arenas[p].cls] + [a]])
  {
    NullNotLive(h);
    PushDefined(h, a);
    ListCount(h);
    var p := PageOf(a);
    if !h.arenas[p].large {
      PushInv(h, a);
      hide HeapInv, PageOf, PerArena;
      var q, i := Push(h, a), h.arenas[p].cls;
      AllFreeIff(q, p);
      assert forall b: nat :: b in q.live <==> b in h.live && b != a;
      assert CanRelease(q, p) <==> |h.free[i]| + 1 >= 2 * PerArena(i) && q.arenas[p].freeCnt == PerArena(i);
    }
  }

  lemma {:induction false} AllFreeIff(h: Heap, p: nat)
    requires HeapInv(h) && p in h.arenas && !h.arenas[p].large && h.arenas[p].cls < |h.free|
    ensures h.arenas[p].freeCnt == PerArena(h.arenas[p].cls) <==> forall b: nat :: b in h.live ==> PageOf(b) != p
  {
    hide PerArena, PageOf, CountFree, NoDup, BlockAt, BlockIdx;
    var i := h.arenas[p].cls;
    if h.arenas[p].freeCnt == PerArena(i) {
      forall b: nat | b in h.live ensures PageOf(b) != p {
        if PageOf(b) == p {
          NoneLive(h, p, b);
        }
      }
    } else {
      assert ArenaOk(h, p);
      CountAll(h.free[i], p, i, PerArena(i));
      var k :| 0 <= k < PerArena(i) && BlockAt(p, i, k) !in h.free[i];
      BlockRoundTrip(p, i, k);
      assert BlockAt(p, i, k) in h.live;
    }
  }

  // ------------------------------------------------------------------ live blocks never overlap

  /** Whatever two callers hold does not overlap and lies inside its arena's pages. */
  lemma {:induction false} LiveInside(h: Heap, a: nat)
    requires HeapInv(h) && a in h.live
    ensures PageOf(a) in h.arenas
    ensures var p := PageOf(a); p * PAGE + HEAD <= a && a + SizeOf(h, a) <= (p + h.arenas[p].Pages()) * PAGE
  {
    hide PerArena, BlockSize, BlockIdx, ListOk;
    assert LiveOk(h, a);
    var p := PageOf(a);
    assert ArenaOk(h, p);
    if !h.arenas[p].large {
      BlockRoundTrip(p, h.arenas[p].cls, BlockIdx(a, h.arenas[p].cls));
    }
  }

  lemma {:induction false} LiveDisjoint(h: Heap, a: nat, b: nat)
    requires HeapInv(h) && a in h.live && b in h.live && a < b
    ensures PageOf(a) in h.arenas && a + SizeOf(h, a) <= b
  {
    hide PerArena, BlockSize, BlockIdx, ListOk, ArenaOk, BlockAt, SizeOf;
    LiveInside(h, a);
    LiveInside(h, b);
    var p, q := PageOf(a), PageOf(b);
    if p == q {
      SamePage(h, a, b);
    } else {
      assert Clear(p, h.arenas[p].Pages(), q, h.arenas[q].Pages());
      PageOrder(a, b, p, q, h.arenas[p].Pages(), h.arenas[q].Pages());
    }
  }

  lemma {:induction false} PageOrder(a: nat, b: nat, p: nat, q: nat, n: nat, m: nat)
    requires a < b && p == PageOf(a) && q == PageOf(b) && p != q && Clear(p, n, q, m)
    ensures (p + n) * PAGE <= b
  {
    assert p < q;
  }

  lemma {:induction false} SamePage(h: Heap, a: nat, b: nat)
    requires HeapInv(h) && a in h.live && b in h.live && a < b && PageOf(a) == PageOf(b) && PageOf(a) in h.arenas
    ensures a + SizeOf(h, a) <= b
  {
    hide PerArena, BlockSize, BlockIdx, ListOk, ArenaOk, PageOf;
    assert LiveOk(h, a) && LiveOk(h, b);
    var i, p := h.arenas[PageOf(a)].cls, PageOf(a);
    var k, l := BlockIdx(a, i), BlockIdx(b, i);
    if !h.arenas[p].large {
      if l < k {
        BlocksApart(p, i, l, k);
      } else if k < l {
        BlocksApart(p, i, k, l);
      }
    }
  }

  // ------------------------------------------------------------------ every run

  datatype Event = MallocCall(size: nat, page: nat) | FreeCall(ptr: nat)

  ghost predicate Enabled(h: Heap, e: Event)
    requires HeapInv(h)
  {
    match e
    case MallocCall(size, page) => Fresh(h, page, PagesNeeded(size))
    case FreeCall(ptr) => ptr == 0 || ptr in h.live
  }

  ghost function Step(h: Heap, e: Event): (r: Heap)
    requires HeapInv(h) && Enabled(h, e)
    ensures HeapInv(r)
  {
    match e
    case MallocCall(size, page) => Malloc(h, size, page).0
    case FreeCall(ptr) => Free(h, ptr)
  }

  ghost function Run(h: Heap, es: seq<Event>): (r: Heap)
    requires HeapInv(h)
    ensures HeapInv(r)
    decreases |es|
  {
    if es == [] then h else Run(if Enabled(h, es[0]) then Step(h, es[0]) else h, es[1..])
  }

  function Empty(): (r: Heap) {
    Heap(map[], seq(CLASSES, i => []), {})
  }

  lemma {:induction false} EmptyInv()
    ensures HeapInv(Empty())
  {
  }

  /** After every run of malloc and free from the empty heap: a small arena's free_cnt is the
      number of its blocks on the free list, every block of it is free or held but not both, and
      what callers hold is disjoint and inside its pages. */
  lemma {:induction false} HeapSafe(es: seq<Event>)
    ensures HeapInv(Empty())
    ensures var h := Run(Empty(), es);
            && (forall p :: p in h.arenas && !h.arenas[p].large ==>
                  && h.arenas[p].cls < |h.free|
                  && h.arenas[p].freeCnt ==
                       CountFree(h.free[h.arenas[p].cls], p, h.arenas[p].cls, PerArena(h.arenas[p].cls))
                  && forall k :: 0 <= k < PerArena(h.arenas[p].cls) ==>
                       (BlockAt(p, h.arenas[p].cls, k) in h.free[h.arenas[p].cls] <==>
                          BlockAt(p, h.arenas[p].cls, k) !in h.live))
            && (forall a :: a in h.live ==> PageOf(a) in h.arenas)
            && (forall a, b :: a in h.live && b in h.live && a < b ==> a + SizeOf(h, a) <= b)
  {
    EmptyInv();
    hide Run, PerArena, BlockAt, SizeOf, CountFree, NoDup, IsBlock, PageOf;
    var h := Run(Empty(), es);
    forall p | p in h.arenas && !h.arenas[p].large
      ensures h.arenas[p].cls < |h.free|
      ensures h.arenas[p].freeCnt == CountFree(h.free[h.arenas[p].cls], p, h.arenas[p].cls, PerArena(h.arenas[p].cls))
      ensures forall k :: 0 <= k < PerArena(h.arenas[p].cls) ==>
                (BlockAt(p, h.arenas[p].cls, k) in h.free[h.arenas[p].cls] <==>
                   BlockAt(p, h.arenas[p].cls, k) !in h.live)
    {
      FreeXorLive(h, p);
    }
    forall a | a in h.live ensures PageOf(a) in h.arenas {
      LiveInside(h, a);
    }
    forall a, b | a in h.live && b in h.live && a < b ensures PageOf(a) in h.arenas && a + SizeOf(h, a) <= b {
      LiveDisjoint(h, a, b);
    }
  }

  lemma {:induction false} FreeXorLive(h: Heap, p: nat)
    requires HeapInv(h) && p in h.arenas && !h.arenas[p].large
    ensures var i := h.arenas[p].cls;
            && i < |h.free| && h.arenas[p].freeCnt == CountFree(h.free[i], p, i, PerArena(i))
            && forall k :: 0 <= k < PerArena(i) ==> (BlockAt(p, i, k) in h.free[i] <==> BlockAt(p, i, k) !in h.live)
  {
    hide PerArena, BlockAt, CountFree, NoDup, IsBlock, PageOf;
    assert ArenaOk(h, p);
    var i := h.arenas[p].cls;
    assert ListOk(h, i);
    forall k | 0 <= k < PerArena(i) ensures BlockAt(p, i, k) in h.free[i] <==> BlockAt(p, i, k) !in h.live {
      assert BlockAt(p, i, k) in h.free[i] ==> OnList(h, BlockAt(p, i, k), i);
    }
  }

  // ------------------------------------------------------------------ the code

  /** init_malloc_desc. */
  method InitMallocDesc() returns (blockSize: seq<nat>, perArena: seq<nat>, free: seq<seq<nat>>)
    ensures |blockSize| == |perArena| == CLASSES && free == Empty().free
    ensures forall i :: 0 <= i < CLASSES ==> blockSize[i] == BlockSize(i) && perArena[i] == PerArena(i)
  {
    hide Quotient;
    blockSize, perArena, free := [], [], [];
    var size := 8;
    for i := 0 to CLASSES
      invariant |blockSize| == |perArena| == |free| == i && size == BlockSize(i)
      invariant forall j :: 0 <= j < i ==> blockSize[j] == BlockSize(j)
      invariant forall j :: 0 <= j < i ==> perArena[j] == PerArena(j)
      invariant forall j :: 0 <= j < i ==> free[j] == []
    {
      blockSize := blockSize + [size];
      perArena := perArena + [Quotient(PAGE - HEAD, size)];
      free := free + [[]];
      size := size * 2;
    }
  }

  /** What _free is given to return pages with: by free and by vfree. */
  datatype Unallocator = Munmap | UnallocKernelMem

  /** malloc_state: the block sizes and counts of the descriptors, their lists, and the arena
      headers by page. `live` is what the callers hold. */
  class MallocState {
    var blockSize: seq<nat>
    var perArena: seq<nat>
    var free: seq<seq<nat>>
    var arenas: map<nat, Arena>
    ghost var live: set<nat>

    ghost function Value(): (r: Heap)
      reads this
    {
      Heap(arenas, free, live)
    }

    ghost predicate Valid()
      reads this
    {
      && HeapInv(Value())
      && |blockSize| == CLASSES && |perArena| == CLASSES
      && forall i :: 0 <= i < CLASSES ==> blockSize[i] == BlockSize(i) && perArena[i] == PerArena(i)
    }

    constructor ()
      ensures Valid() && Value() == Empty()
    {
      hide HeapInv, BlockSize, PerArena;
      arenas, live := map[], {};
      blockSize, perArena, free := [], [], [];
      new;
      blockSize, perArena, free := InitMallocDesc();
      EmptyInv();
    }

    /** The search for the class. */
    method PickClass(size: nat) returns (i: nat)
      requires Valid() && size <= 1024
      ensures i == ClassOf(size)
    {
      hide HeapInv, BlockSize, PerArena;
      i := 0;
      while i < CLASSES && size > blockSize[i]
        invariant i <= CLASSES && forall j :: 0 <= j < i ==> BlockSize(j) < size
      {
        i := i + 1;
      }
      assert BlockSize(ClassOf(size)) >= size;
    }

    /** A new arena: its header, and its blocks pushed one by one. */
    method AddArena(i: nat, page: nat)
      requires Valid() && i < CLASSES && free[i] == [] && Fresh(Value(), page, 1)
      modifies this`arenas, this`free
      ensures Valid() && Value() == Refill(old(Value()), i, page)
    {
      RefillInv(Value(), i, page);
      hide HeapInv, BlockSize, PerArena, BlockAt;
      ghost var h := Value();
      arenas := arenas[page := Arena(false, i, perArena[i])];
      assert free[i] == h.free[i] + Blocks(page, i, 0);
      for k := 0 to perArena[i]
        modifies this`free
        invariant free == h.free[i := h.free[i] + Blocks(page, i, k)]
      {
        assert h.free[i] + Blocks(page, i, k + 1) == h.free[i] + Blocks(page, i, k) + [BlockAt(page, i, k)];
        free := free[i := free[i] + [BlockAt(page, i, k)]];
      }
    }

    /** _malloc; `page` is what the page allocator returns if it is asked. */
    method MallocNow(size: nat, page: nat) returns (ptr: nat)
      requires Valid() && size < WORD && (Wraps(size) || Fresh(Value(), page, PagesNeeded(size)))
      modifies this`arenas, this`free, this`live
      ensures !Wraps(size) ==> Valid() && (Value(), ptr) == Malloc(old(Value()), size, page)
      ensures Wraps(size) ==> ptr == page * PAGE + HEAD && Value() == NewLarge(old(Value()), page, PagesAsked(size))
    {
      hide HeapInv, BlockSize, PerArena, Fresh, SizeOf;
      PagesAskedIff(size);
      ghost var after := if Wraps(size) then (Value(), 0) else Malloc(Value(), size, page);
      if size > 1024 {
        var pages := PagesAsked(size);
        arenas := arenas[page := Arena(true, 0, pages)];
        ptr := page * PAGE + HEAD;
        live := live + {ptr};
        return;
      }
      var i := PickClass(size);
      ListCount(Value());
      if |free[i]| == 0 {
        AddArena(i, page);
        ListCount(Value());
        PerArenaPositive(i);
      }
      ptr := free[i][0];
      Popped(Value(), i);
      free := free[i := free[i][1..]];
      live := live + {ptr};
      var p := PageOf(ptr);
      arenas := arenas[p := arenas[p].(freeCnt := arenas[p].freeCnt - 1)];
    }

    /** The blocks of a page unlinked one by one. */
    method UnlinkArena(i: nat, p: nat, n: nat)
      requires i < |free|
      modifies this`free
      ensures free == old(free)[i := Without(old(free)[i], Blocks(p, i, n))]
    {
      hide BlockAt, Remove, Without;
      ghost var was := free;
      assert Without(was[i], []) == was[i] by { WithoutNone(was[i]); }
      assert Blocks(p, i, 0) == [];
      for k := 0 to n
        modifies this`free
        invariant free == was[i := Without(was[i], Blocks(p, i, k))]
      {
        assert Blocks(p, i, k + 1) == Blocks(p, i, k) + [BlockAt(p, i, k)];
        WithoutLast(was[i], Blocks(p, i, k), BlockAt(p, i, k));
        free := free[i := Remove(free[i], BlockAt(p, i, k))];
      }
    }

    /** _free; `to` is the function that takes pages back, if any go. A large block goes to munmap
        whatever `un` says: so pages go where they did not come from if and only if the block is
        large and `un` is not munmap. */
    method FreeNow(ptr: nat, un: Unallocator) returns (to: Option<Unallocator>)
      requires Valid() && (ptr == 0 || ptr in live)
      modifies this`arenas, this`free, this`live
      ensures Valid() && Value() == Free(old(Value()), ptr)
      ensures to.Some? <==> ptr != 0 && PageOf(ptr) !in arenas
      ensures ptr != 0 ==> PageOf(ptr) in old(arenas)
      ensures to.Some? && to.value != un <==> ptr != 0 && old(arenas)[PageOf(ptr)].large && un != Munmap
    {
      hide HeapInv, BlockSize, PerArena;
      ghost var after := Free(Value(), ptr);
      if ptr == 0 {
        return None;
      }
      PushDefined(Value(), ptr);
      ListCount(Value());
      var p := PageOf(ptr);
      live := live - {ptr};
      if arenas[p].large {
        arenas := arenas - {p};
        return Some(Munmap);
      }
      var i := arenas[p].cls;
      free := free[i := free[i] + [ptr]];
      arenas := arenas[p := arenas[p].(freeCnt := arenas[p].freeCnt + 1)];
      if |free[i]| >= perArena[i] * 2 && arenas[p].freeCnt == perArena[i] {
        UnlinkArena(i, p, arenas[p].freeCnt);
        arenas := arenas - {p};
        return Some(un);
      }
      return None;
    }
  }

  /** It happens to every large block of the kernel's heap. */
  method LargeVfree(heap: MallocState, size: nat, page: nat) returns (to: Option<Unallocator>)
    requires heap.Valid() && 1024 < size < WORD && !Wraps(size) && Fresh(heap.Value(), page, PagesNeeded(size))
    modifies heap
    ensures heap.Valid() && to == Some(Munmap)
  {
    hide HeapInv, Fresh, SizeOf, BlockSize, PerArena;
    var ptr := heap.MallocNow(size, page);
    LargePage(page);
    to := heap.FreeNow(ptr, UnallocKernelMem);
  }

  lemma {:induction false} ListCount(h: Heap)
    requires HeapInv(h)
    ensures |h.free| == CLASSES
  {
  }
}
