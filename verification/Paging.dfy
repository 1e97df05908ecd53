/** The two-level page tables of kernel/memory/paging.c and common/cpu/mmu.h (32-bit paging,
    section 4.3 of the Intel SDM, volume 3A). Pages and frames are numbers of 4096 bytes. */
module Paging {
  import opened Arith
  import opened Chunks
  import opened Lists

  const ENTRIES := 1024
  const PAGES := 1024 * 1024
  const PAGE := 4096

  /** A directory or a table: 1024 entries of 32 bits. */
  type Table = t: seq<nat> | |t| == ENTRIES witness seq(ENTRIES, i => 0)

  /** A cleared page. */
  function Zeros(): (r: Table)
    ensures forall i :: 0 <= i < ENTRIES ==> r[i] == 0
  {
    seq(ENTRIES, i => 0)
  }

  /** The pages that hold directories and tables, by frame, and the frames that
      alloc_kernel_mem(1) will hand out. */
  datatype Mem = Mem(tables: map<nat, Table>, pool: seq<nat>)

  // ------------------------------------------------------------------ entries

  predicate Present(e: nat) {
    e % 2 == 1
  }

  /** The ps bit of a directory entry: it maps 4 MB itself. */
  predicate Big(e: nat) {
    (e / 128) % 2 == 1
  }

  /** The bits that allow writing and access from user mode. */
  predicate Writable(e: nat) {
    (Low(e) / 2) % 2 == 1
  }

  predicate UserOk(e: nat) {
    (Low(e) / 4) % 2 == 1
  }

  function FrameOf(e: nat): (r: nat) {
    e / PAGE
  }

  /** The low twelve bits. */
  function Low(e: nat): (r: nat) {
    e % PAGE
  }

  /** A page-aligned address or'ed with flags and the present bit: besides that bit the low twelve
      bits are the flags. */
  function Entry(frame: nat, flags: nat): (r: nat)
    requires flags < PAGE
    ensures Present(r) && FrameOf(r) == frame && Low(r) / 2 == flags / 2
  {
    frame * PAGE + flags + (1 - flags % 2)
  }

  lemma {:induction false} EntryBits(frame: nat, flags: nat)
    requires flags < PAGE
    ensures var e := Entry(frame, flags);
            Low(e) == flags / 2 * 2 + 1 && Writable(e) == Writable(flags) && UserOk(e) == UserOk(flags)
  {
    hide Entry, Low, Present;
    var e := Entry(frame, flags);
    LowPresent(e);
    LowPresent(flags);
    LowOnly(Low(e), flags);
  }

  lemma {:induction false} LowOnly(l: nat, flags: nat)
    requires Present(l) && l / 2 == flags / 2
    ensures l == flags / 2 * 2 + 1 && l / 4 == flags / 4
  {
  }

  lemma {:induction false} LowPresent(e: nat)
    ensures Present(e) == Present(Low(e)) && (e < PAGE ==> Low(e) == e)
  {
  }

  /** PDE_P | PDE_W | PDE_U. */
  function TableEntry(frame: nat): (r: nat)
    ensures Present(r) && !Big(r) && FrameOf(r) == frame && Writable(r) && UserOk(r)
  {
    assert Low(frame * PAGE + 7) == 7;
    frame * PAGE + 7
  }

  /** pde_index and pte_index of a page. */
  function PdeIndex(q: nat): (r: nat)
    requires q < PAGES
    ensures r < ENTRIES
  {
    q / ENTRIES
  }

  function PteIndex(q: nat): (r: nat)
    ensures r < ENTRIES
  {
    q % ENTRIES
  }

  lemma {:induction false} IndicesTell(p: nat, q: nat)
    requires p < PAGES && q < PAGES && PdeIndex(p) == PdeIndex(q) && PteIndex(p) == PteIndex(q)
    ensures p == q
  {
  }

  // ------------------------------------------------------------------ translation

  /** A mapped page as the processor sees it: its frame, the low bits of its entry, and whether it
      may be written and used from user mode. */
  datatype Page = Page(frame: nat, low: nat, write: bool, user: bool)

  /** What page `q` translates to under directory `d`, by hardware rules: both levels must allow a
      write or an access from user mode; for a 4 MB page the frame is counted on. */
  function Translate(m: Mem, d: nat, q: nat): (r: Option<Page>)
    requires q < PAGES
  {
    if d !in m.tables then None else
    var pde := m.tables[d][PdeIndex(q)];
    if !Present(pde) then None
    else if Big(pde) then Some(Page(FrameOf(pde) + PteIndex(q), Low(pde), Writable(pde), UserOk(pde)))
    else if FrameOf(pde) !in m.tables then None
    else
      var pte := m.tables[FrameOf(pde)][PteIndex(q)];
      if !Present(pte) then None
      else Some(Page(FrameOf(pte), Low(pte), Writable(pde) && Writable(pte), UserOk(pde) && UserOk(pte)))
  }

  /** vaddr2paddr of an address, given the frame of its page: phy_addr keeps ten offset bits. */
  function PhyAddr(frame: nat, vaddr: nat): (r: nat) {
    frame * PAGE + vaddr % 1024
  }

  /** The physical address is right if and only if the offset in the page is below 1024. */
  lemma {:induction false} PhyAddrIff(frame: nat, vaddr: nat)
    ensures PhyAddr(frame, vaddr) == frame * PAGE + vaddr % PAGE <==> vaddr % PAGE < 1024
  {
    var q, o := vaddr / PAGE, vaddr % PAGE;
    assert vaddr == (4 * q + o / 1024) * 1024 + o % 1024;
    QuotientUnique(vaddr, 1024, 4 * q + o / 1024, o % 1024);
  }

  // ------------------------------------------------------------------ the invariant

  /** Directory `d` has a table of its own for entry `i` of user space. */
  predicate Owns(m: Mem, dirs: set<nat>, k: nat, d: nat, i: nat) {
    d in dirs && d in m.tables && k <= i < ENTRIES && Present(m.tables[d][i])
  }

  /** Entry `i` of directory `d` refers to a table. */
  predicate Refers(m: Mem, dirs: set<nat>, d: nat, i: nat) {
    d in dirs && d in m.tables && i < ENTRIES && Present(m.tables[d][i]) && !Big(m.tables[d][i])
  }

  /** User tables belong to one directory and one entry, which allows everything, and are no
      directories and no kernel tables; the free frames hold none of them. Entries below `k` are the
      kernel's. */
  ghost predicate MemInv(m: Mem, dirs: set<nat>, k: nat) {
    && k <= ENTRIES && NoDup(m.pool)
    && (forall f: nat :: f in m.pool ==> f !in m.tables)
    && (forall d :: d in dirs ==> d in m.tables)
    && (forall d: nat, i: nat :: Refers(m, dirs, d, i) ==>
          FrameOf(m.tables[d][i]) in m.tables && FrameOf(m.tables[d][i]) !in dirs)
    && (forall d: nat, i: nat :: Owns(m, dirs, k, d, i) ==>
          !Big(m.tables[d][i]) && Writable(m.tables[d][i]) && UserOk(m.tables[d][i]))
    && (forall d: nat, i: nat, e: nat, j: nat :: Owns(m, dirs, k, d, i) && Refers(m, dirs, e, j) ==>
          (FrameOf(m.tables[d][i]) == FrameOf(m.tables[e][j]) ==> d == e && i == j))
  }

  // ------------------------------------------------------------------ mapping one page

  /** The table for page `q` is there, or a frame for it is free. */
  predicate HasFrame(m: Mem, d: nat, q: nat) {
    d in m.tables && q < PAGES && (Present(m.tables[d][PdeIndex(q)]) || m.pool != [])
  }

  /** find_pte_alloc with alloc: a new table for page `q` if there is none. */
  function WithTable(m: Mem, d: nat, q: nat): (r: Mem)
    requires HasFrame(m, d, q)
  {
    var dir := m.tables[d];
    if Present(dir[PdeIndex(q)]) then m
    else Mem(m.tables[d := dir[PdeIndex(q) := TableEntry(m.pool[0])]][m.pool[0] := Zeros()], m.pool[1..])
  }

  function TableFrame(m: Mem, d: nat, q: nat): (r: nat)
    requires d in m.tables && q < PAGES
  {
    FrameOf(m.tables[d][PdeIndex(q)])
  }

  /** The page table entry of `q` written. */
  function WithPage(m: Mem, d: nat, q: nat, e: nat): (r: Mem)
    requires d in m.tables && q < PAGES && TableFrame(m, d, q) in m.tables
  {
    var f := TableFrame(m, d, q);
    m.(tables := m.tables[f := m.tables[f][PteIndex(q) := e]])
  }

  lemma {:induction false} WithTableInv(m: Mem, dirs: set<nat>, k: nat, d: nat, q: nat)
    requires MemInv(m, dirs, k) && d in dirs && HasFrame(m, d, q) && k <= PdeIndex(q)
    ensures MemInv(WithTable(m, d, q), dirs, k)
    ensures Owns(WithTable(m, d, q), dirs, k, d, PdeIndex(q))
  {
    hide NoDup, Present, Big, FrameOf, TableEntry, PdeIndex;
    var r, i := WithTable(m, d, q), PdeIndex(q);
    if !Present(m.tables[d][i]) {
      var f := m.pool[0];
      assert f in m.pool;
      PopFacts(m.pool);
      assert forall e :: e in dirs ==> r.tables[e] == if e == d then m.tables[d][i := TableEntry(f)] else m.tables[e];
      forall e: nat, j: nat | Refers(r, dirs, e, j) ensures (e == d && j == i) || Refers(m, dirs, e, j) {
      }
      forall e: nat, j: nat | Owns(r, dirs, k, e, j) ensures (e == d && j == i) || Owns(m, dirs, k, e, j) {
      }
    }
  }

  lemma {:induction false} WithTableSame(m: Mem, dirs: set<nat>, k: nat, d: nat, q: nat, e: nat, p: nat)
    requires MemInv(m, dirs, k) && d in dirs && HasFrame(m, d, q) && k <= PdeIndex(q) && e in dirs && p < PAGES
    ensures Translate(WithTable(m, d, q), e, p) == Translate(m, e, p)
  {
    hide NoDup, Present, Big, FrameOf, TableEntry, PdeIndex, PteIndex;
    assert m.pool != [] ==> m.pool[0] in m.pool;
    assert !Present(0) by { ZeroAbsent(); }
    assert Zeros()[PteIndex(p)] == 0;
    assert Present(m.tables[e][PdeIndex(p)]) && !Big(m.tables[e][PdeIndex(p)]) ==> Refers(m, dirs, e, PdeIndex(p));
  }

  lemma {:induction false} ZeroAbsent()
    ensures !Present(0)
  {
  }

  lemma {:induction false} WithPageInv(m: Mem, dirs: set<nat>, k: nat, d: nat, q: nat, v: nat)
    requires MemInv(m, dirs, k) && q < PAGES && Owns(m, dirs, k, d, PdeIndex(q))
    ensures TableFrame(m, d, q) in m.tables && MemInv(WithPage(m, d, q, v), dirs, k)
  {
    hide NoDup, Present, Big, FrameOf, PdeIndex, PteIndex;
    var f := TableFrame(m, d, q);
    assert Refers(m, dirs, d, PdeIndex(q));
    var r := WithPage(m, d, q, v);
    assert forall e :: e in dirs ==> r.tables[e] == m.tables[e];
    forall e: nat, j: nat | Refers(r, dirs, e, j) ensures Refers(m, dirs, e, j) {
    }
    forall e: nat, j: nat | Owns(r, dirs, k, e, j) ensures Owns(m, dirs, k, e, j) {
    }
  }

  /** Writing the entry of a page of user space changes the translation of that page only, and
      only in this directory. */
  lemma {:induction false} WithPageEffect(m: Mem, dirs: set<nat>, k: nat, d: nat, q: nat, v: nat, e: nat, p: nat)
    requires MemInv(m, dirs, k) && q < PAGES && Owns(m, dirs, k, d, PdeIndex(q)) && e in dirs && p < PAGES
    requires TableFrame(m, d, q) in m.tables && Present(v)
    ensures Translate(WithPage(m, d, q, v), e, p) ==
            if e == d && p == q then Some(Page(FrameOf(v), Low(v), Writable(v), UserOk(v))) else Translate(m, e, p)
  {
    hide NoDup, Present, Big, FrameOf, PdeIndex, PteIndex, Low, Writable, UserOk;
    var f := TableFrame(m, d, q);
    assert Refers(m, dirs, d, PdeIndex(q));
    var r := WithPage(m, d, q, v);
    assert r.tables[e] == m.tables[e];
    var pde := m.tables[e][PdeIndex(p)];
    if Present(pde) && !Big(pde) && FrameOf(pde) == f {
      assert Refers(m, dirs, e, PdeIndex(p)) && e == d && PdeIndex(p) == PdeIndex(q);
      if PteIndex(p) == PteIndex(q) {
        IndicesTell(p, q);
      }
    }
  }

  // ------------------------------------------------------------------ how many frames a range takes

  /** The frames that mapping the range takes: one for every directory entry of it that is absent,
      up to the first page that is mapped already. */
  function Needed(m: Mem, d: nat, q: nat, n: nat): (r: nat)
    requires d in m.tables && q + n <= PAGES
    decreases n
  {
    if n == 0 then 0
    else if !Present(m.tables[d][PdeIndex(q)]) then
      var rest := Min(n, ENTRIES - PteIndex(q));
      1 + Needed(m, d, q + rest, n - rest)
    else if Translate(m, d, q).Some? then 0
    else Needed(m, d, q + 1, n - 1)
  }

  /** Two memories in which the pages of a range look alike. */
  ghost predicate Alike(m: Mem, w: Mem, d: nat, q: nat, n: nat)
    requires d in m.tables && d in w.tables && q + n <= PAGES
  {
    forall p: nat :: q <= p < q + n ==>
      Present(m.tables[d][PdeIndex(p)]) == Present(w.tables[d][PdeIndex(p)]) && Translate(m, d, p) == Translate(w, d, p)
  }

  lemma {:induction false} NeededAlike(m: Mem, w: Mem, d: nat, q: nat, n: nat)
    requires d in m.tables && d in w.tables && q + n <= PAGES && Alike(m, w, d, q, n)
    ensures Needed(m, d, q, n) == Needed(w, d, q, n)
    decreases n
  {
    hide Translate, Present, PdeIndex, PteIndex;
    if n > 0 {
      if !Present(m.tables[d][PdeIndex(q)]) {
        var rest := Min(n, ENTRIES - PteIndex(q));
        NeededAlike(m, w, d, q + rest, n - rest);
      } else {
        NeededAlike(m, w, d, q + 1, n - 1);
      }
    }
  }

  /** Pages that have a table and are not mapped take nothing. */
  lemma {:induction false} NeededSkip(w: Mem, d: nat, q: nat, n: nat, skip: nat)
    requires d in w.tables && q + n <= PAGES && skip <= n
    requires forall p: nat :: q <= p < q + skip ==> Present(w.tables[d][PdeIndex(p)]) && Translate(w, d, p).None?
    ensures Needed(w, d, q, n) == Needed(w, d, q + skip, n - skip)
    decreases skip
  {
    hide Translate, Present, PdeIndex;
    if skip > 0 {
      NeededSkip(w, d, q + 1, n - 1, skip - 1);
    }
  }

  lemma {:induction false} SameEntry(q: nat, p: nat)
    requires q < PAGES && p < PAGES && q <= p
    ensures PdeIndex(p) == PdeIndex(q) <==> p - q < ENTRIES - PteIndex(q)
  {
  }

  // ------------------------------------------------------------------ mapping a range

  /** What create_mem_map may be asked for: a range of user space of one of the directories, with
      as many free frames as it takes. */
  ghost predicate MapPre(m: Mem, dirs: set<nat>, k: nat, d: nat, q: nat, n: nat) {
    && MemInv(m, dirs, k) && d in dirs && d in m.tables && k * ENTRIES <= q && q + n <= PAGES
    && Needed(m, d, q, n) <= |m.pool|
  }

  lemma {:induction false} InUserSpace(k: nat, q: nat)
    requires k * ENTRIES <= q < PAGES
    ensures k <= PdeIndex(q)
  {
  }

  /** The frame for the next table is there. */
  lemma {:induction false} NextFrame(m: Mem, d: nat, q: nat, n: nat)
    requires d in m.tables && q + n <= PAGES && 0 < n && Needed(m, d, q, n) <= |m.pool|
    ensures HasFrame(m, d, q)
    ensures Translate(m, d, q).Some? ==> Needed(m, d, q, n) == 0 && WithTable(m, d, q) == m
  {
    hide PdeIndex, PteIndex, Present;
  }

  /** One round: the table is there, and the page is mapped unless it was already. */
  lemma {:induction false} OneRound(m: Mem, dirs: set<nat>, k: nat, d: nat, q: nat, n: nat)
    requires MapPre(m, dirs, k, d, q, n) && 0 < n
    ensures HasFrame(m, d, q)
    ensures var t := WithTable(m, d, q);
            && MemInv(t, dirs, k) && Owns(t, dirs, k, d, PdeIndex(q)) && TableFrame(t, d, q) in t.tables
            && (Translate(m, d, q).Some? <==> Present(t.tables[TableFrame(t, d, q)][PteIndex(q)]))
  {
    hide MemInv, Needed;
    NextFrame(m, d, q, n);
    InUserSpace(k, q);
    WithTableInv(m, dirs, k, d, q);
    WithTableSame(m, dirs, k, d, q, d, q);
    hide WithTable, Present, Big, FrameOf, PdeIndex, PteIndex;
    TableThere(WithTable(m, d, q), dirs, k, d, q);
  }

  lemma {:induction false} TableThere(m: Mem, dirs: set<nat>, k: nat, d: nat, q: nat)
    requires q < PAGES && MemInv(m, dirs, k) && d in dirs && Owns(m, dirs, k, d, PdeIndex(q))
    ensures d in m.tables && TableFrame(m, d, q) in m.tables && !Big(m.tables[d][PdeIndex(q)])
  {
    hide NoDup, Present, Big, FrameOf, PdeIndex;
    assert Refers(m, dirs, d, PdeIndex(q));
  }

  /** The directory after a page was mapped: one entry may have become present. */
  lemma {:induction false} DirAfter(m: Mem, d: nat, q: nat, e: nat)
    requires HasFrame(m, d, q) && TableFrame(WithTable(m, d, q), d, q) in WithTable(m, d, q).tables
    requires d in WithTable(m, d, q).tables && TableFrame(WithTable(m, d, q), d, q) != d &&
             (m.pool != [] ==> m.pool[0] != d)
    ensures var w := WithPage(WithTable(m, d, q), d, q, e);
            && d in w.tables && w.pool == (if Present(m.tables[d][PdeIndex(q)]) then m.pool else m.pool[1..])
            && Present(w.tables[d][PdeIndex(q)])
            && forall i :: 0 <= i < ENTRIES && i != PdeIndex(q) ==> w.tables[d][i] == m.tables[d][i]
  {
    hide Present, PdeIndex, PteIndex, FrameOf, TableEntry;
  }

  /** Mapping one page takes exactly the frame it was counted for. */
  lemma {:induction false} RestNeeded(m: Mem, dirs: set<nat>, k: nat, d: nat, q: nat, n: nat, e: nat)
    requires MapPre(m, dirs, k, d, q, n) && 0 < n && Translate(m, d, q).None? && Present(e)
    requires HasFrame(m, d, q) && d in WithTable(m, d, q).tables &&
             TableFrame(WithTable(m, d, q), d, q) in WithTable(m, d, q).tables
    ensures var w := WithPage(WithTable(m, d, q), d, q, e);
            && MapPre(w, dirs, k, d, q + 1, n - 1)
            && |w.pool| - Needed(w, d, q + 1, n - 1) == |m.pool| - Needed(m, d, q, n)
  {
    hide MemInv, Owns, Translate, Present, PdeIndex, PteIndex, WithTable, WithPage, Big, FrameOf, TableFrame, Needed;
    OneRound(m, dirs, k, d, q, n);
    InUserSpace(k, q);
    var t := WithTable(m, d, q);
    WithPageInv(t, dirs, k, d, q, e);
    var w := WithPage(t, d, q, e);
    Apart(m, t, dirs, k, d, q);
    DirAfter(m, d, q, e);
    forall p: nat | p < PAGES && p != q ensures Translate(w, d, p) == Translate(m, d, p) {
      WithPageEffect(t, dirs, k, d, q, e, d, p);
      WithTableSame(m, dirs, k, d, q, d, p);
    }
    CountRest(m, w, d, q, n);
  }

  /** A directory is neither a table nor a free frame. */
  lemma {:induction false} Apart(m: Mem, t: Mem, dirs: set<nat>, k: nat, d: nat, q: nat)
    requires MemInv(m, dirs, k) && MemInv(t, dirs, k) && d in dirs && q < PAGES && Owns(t, dirs, k, d, PdeIndex(q))
    ensures d in t.tables && TableFrame(t, d, q) != d && (m.pool != [] ==> m.pool[0] != d)
  {
    hide NoDup, Present, Big, FrameOf, PdeIndex;
    assert Refers(t, dirs, d, PdeIndex(q));
    assert m.pool != [] ==> m.pool[0] in m.pool;
  }

  lemma {:induction false} CountRest(m: Mem, w: Mem, d: nat, q: nat, n: nat)
    requires d in m.tables && d in w.tables && q + n <= PAGES && 0 < n && Translate(m, d, q).None?
    requires Present(w.tables[d][PdeIndex(q)])
    requires forall i :: 0 <= i < ENTRIES && i != PdeIndex(q) ==> w.tables[d][i] == m.tables[d][i]
    requires forall p: nat :: p < PAGES && p != q ==> Translate(w, d, p) == Translate(m, d, p)
    ensures Needed(w, d, q + 1, n - 1) == Needed(m, d, q, n) - (if Present(m.tables[d][PdeIndex(q)]) then 0 else 1)
  {
    hide Present, PdeIndex, PteIndex;
    if Present(m.tables[d][PdeIndex(q)]) {
      hide Translate;
      NeededAlike(m, w, d, q + 1, n - 1);
    } else {
      var rest := Min(n, ENTRIES - PteIndex(q));
      forall p: nat | q < p < q + rest ensures Present(w.tables[d][PdeIndex(p)]) && Translate(w, d, p).None? {
        SameEntry(q, p);
      }
      hide Translate;
      NeededSkip(w, d, q + 1, n - 1, rest - 1);
      forall p: nat | q + rest <= p < q + n
        ensures Present(m.tables[d][PdeIndex(p)]) == Present(w.tables[d][PdeIndex(p)])
      {
        SameEntry(q, p);
      }
      NeededAlike(m, w, d, q + rest, n - rest);
    }
  }

  /** create_mem_map: the memory afterwards and the number of pages mapped. It takes exactly the
      frames counted. */
  ghost function MapRange(m: Mem, dirs: set<nat>, k: nat, d: nat, q: nat, frame: nat, n: nat,
                          flags: nat): (r: (Mem, nat))
    requires MapPre(m, dirs, k, d, q, n) && flags < PAGE
    ensures MemInv(r.0, dirs, k) && r.1 <= n && |r.0.pool| == |m.pool| - Needed(m, d, q, n)
    decreases n
  {
    if n == 0 then (m, 0) else
    OneRound(m, dirs, k, d, q, n);
    var t := WithTable(m, d, q);
    if Translate(m, d, q).Some? then NextFrame(m, d, q, n); (t, 0) else
    RestNeeded(m, dirs, k, d, q, n, Entry(frame, flags));
    var rest := MapRange(WithPage(t, d, q, Entry(frame, flags)), dirs, k, d, q + 1, frame + 1, n - 1, flags);
    (rest.0, rest.1 + 1)
  }

  /** What `p` translates to under `e` after `done` pages from `q` on were mapped to frames from
      `frame` on in directory `d`, with the given permissions. */
  ghost function Mapped(m: Mem, d: nat, q: nat, frame: nat, flags: nat, done: nat, e: nat, p: nat): (r: Option<Page>)
    requires p < PAGES
  {
    if e == d && q <= p < q + done then
      Some(Page(frame + (p - q), flags / 2 * 2 + 1, Writable(flags), UserOk(flags)))
    else Translate(m, e, p)
  }

  /** Address-space isolation: create_mem_map makes page i of the range translate to frame i with
      the permissions asked for, and changes no other translation or permission, neither in its
      directory nor in any other. It stops at the first page that was mapped already, and succeeds
      exactly if there is none. */
  lemma {:induction false} MapRangeEffect(m: Mem, dirs: set<nat>, k: nat, d: nat, q: nat, frame: nat, n: nat,
                                          flags: nat, e: nat, p: nat)
    requires MapPre(m, dirs, k, d, q, n) && flags < PAGE && e in dirs && p < PAGES
    ensures var r := MapRange(m, dirs, k, d, q, frame, n, flags);
            && Translate(r.0, e, p) == Mapped(m, d, q, frame, flags, r.1, e, p)
            && (e == d && q <= p < q + r.1 ==> Translate(m, d, p).None?)
            && (r.1 < n ==> q + r.1 < PAGES && Translate(m, d, q + r.1).Some?)
    decreases n
  {
    hide WithTable, WithPage, MemInv, Translate, Entry, Present, FrameOf, PdeIndex, PteIndex, Big, TableFrame, Needed,
         Low, Writable, UserOk;
    if n > 0 {
      OneRound(m, dirs, k, d, q, n);
      InUserSpace(k, q);
      var t := WithTable(m, d, q);
      WithTableSame(m, dirs, k, d, q, e, p);
      if Translate(m, d, q).None? {
        var v := Entry(frame, flags);
        RestNeeded(m, dirs, k, d, q, n, v);
        var w := WithPage(t, d, q, v);
        WithPageEffect(t, dirs, k, d, q, v, e, p);
        EntryBits(frame, flags);
        MapRangeEffect(w, dirs, k, d, q + 1, frame + 1, n - 1, flags, e, p);
        var done := MapRange(w, dirs, k, d, q + 1, frame + 1, n - 1, flags).1;
        if done < n - 1 {
          WithPageEffect(t, dirs, k, d, q, v, d, q + 1 + done);
          WithTableSame(m, dirs, k, d, q, d, q + 1 + done);
        }
      }
    }
  }

  // ------------------------------------------------------------------ a new address space

  /** The directory that create_uvm makes: the kernel's present entries below `k`. */
  function UserDir(kernel: Table, k: nat): (r: Table) {
    seq(ENTRIES, i requires 0 <= i < ENTRIES => if i < k && Present(kernel[i]) then kernel[i] else 0)
  }

  function WithDir(m: Mem, kdir: nat, k: nat): (r: Mem)
    requires kdir in m.tables && m.pool != []
  {
    Mem(m.tables[m.pool[0] := UserDir(m.tables[kdir], k)], m.pool[1..])
  }

  lemma {:induction false} WithDirInv(m: Mem, dirs: set<nat>, k: nat, kdir: nat)
    requires MemInv(m, dirs, k) && kdir in dirs && m.pool != []
    ensures m.pool[0] !in dirs && MemInv(WithDir(m, kdir, k), dirs + {m.pool[0]}, k)
  {
    hide NoDup, Big, FrameOf;
    var f, r := m.pool[0], WithDir(m, kdir, k);
    assert f in m.pool;
    PopFacts(m.pool);
    var all := dirs + {f};
    forall d: nat, i: nat | Refers(r, all, d, i)
      ensures Refers(m, dirs, if d == f then kdir else d, i) &&
              m.tables[if d == f then kdir else d][i] == r.tables[d][i]
    {
    }
    forall d: nat, i: nat | Owns(r, all, k, d, i) ensures d != f && Owns(m, dirs, k, d, i) {
    }
    forall d: nat, i: nat, e: nat, j: nat | Owns(r, all, k, d, i) && Refers(r, all, e, j) &&
           FrameOf(r.tables[d][i]) == FrameOf(r.tables[e][j])
      ensures d == e && i == j
    {
    }
  }

  /** create_uvm shares the kernel's part, maps nothing else, and touches no other directory. */
  lemma {:induction false} WithDirEffect(m: Mem, dirs: set<nat>, k: nat, kdir: nat, e: nat, p: nat)
    requires MemInv(m, dirs, k) && kdir in dirs && m.pool != [] && e in dirs && p < PAGES
    ensures Translate(WithDir(m, kdir, k), e, p) == Translate(m, e, p)
    ensures Translate(WithDir(m, kdir, k), m.pool[0], p) == if p < k * ENTRIES then Translate(m, kdir, p) else None
    ensures m.pool[0] in WithDir(m, kdir, k).tables
    ensures var pde := WithDir(m, kdir, k).tables[m.pool[0]][PdeIndex(p)]; Present(pde) || pde == 0
  {
    hide NoDup, Big, FrameOf, PteIndex;
    var f := m.pool[0];
    assert f in m.pool;
    assert Present(m.tables[e][PdeIndex(p)]) && !Big(m.tables[e][PdeIndex(p)]) ==> Refers(m, dirs, e, PdeIndex(p));
    assert Present(m.tables[kdir][PdeIndex(p)]) && !Big(m.tables[kdir][PdeIndex(p)]) ==>
             Refers(m, dirs, kdir, PdeIndex(p));
  }

  // ------------------------------------------------------------------ every run

  datatype Event = Map(d: nat, q: nat, frame: nat, n: nat, flags: nat) | NewDir

  datatype Space = Space(m: Mem, dirs: set<nat>)

  ghost predicate SpaceInv(s: Space, k: nat, kdir: nat) {
    MemInv(s.m, s.dirs, k) && kdir in s.dirs
  }

  ghost predicate Enabled(s: Space, k: nat, e: Event) {
    match e
    case Map(d, q, _, n, flags) => MapPre(s.m, s.dirs, k, d, q, n) && flags < PAGE
    case NewDir => s.m.pool != []
  }

  ghost function Step(s: Space, k: nat, kdir: nat, e: Event): (r: Space)
    requires SpaceInv(s, k, kdir) && Enabled(s, k, e)
    ensures SpaceInv(r, k, kdir) && s.dirs <= r.dirs
  {
    match e
    case Map(d, q, frame, n, flags) => s.(m := MapRange(s.m, s.dirs, k, d, q, frame, n, flags).0)
    case NewDir => WithDirInv(s.m, s.dirs, k, kdir); Space(WithDir(s.m, kdir, k), s.dirs + {s.m.pool[0]})
  }

  ghost function Run(s: Space, k: nat, kdir: nat, es: seq<Event>): (r: Space)
    requires SpaceInv(s, k, kdir)
    ensures SpaceInv(r, k, kdir) && s.dirs <= r.dirs
    decreases |es|
  {
    if es == [] then s else Run(if Enabled(s, k, es[0]) then Step(s, k, kdir, es[0]) else s, k, kdir, es[1..])
  }

  /** The memory after init_paging: the kernel's directory maps nothing in user space, and its
      entries refer to tables that are no directories. */
  ghost predicate Booted(m: Mem, k: nat, kdir: nat) {
    && k <= ENTRIES && NoDup(m.pool) && (forall f: nat :: f in m.pool ==> f !in m.tables) && kdir in m.tables
    && (forall i: nat :: k <= i < ENTRIES ==> !Present(m.tables[kdir][i]))
    && (forall i: nat :: Refers(m, {kdir}, kdir, i) ==>
          FrameOf(m.tables[kdir][i]) in m.tables && FrameOf(m.tables[kdir][i]) != kdir)
  }

  /** It is where every run begins. */
  lemma {:induction false} BootedOk(m: Mem, k: nat, kdir: nat)
    requires Booted(m, k, kdir)
    ensures SpaceInv(Space(m, {kdir}), k, kdir) && Shared(Space(m, {kdir}), k, kdir)
  {
    hide NoDup, Present, Big, FrameOf, Translate;
  }

  /** Whatever mappings are made in user space and whatever address spaces are created, nothing
      changes for a directory that none of the mappings was asked for. */
  lemma {:induction false} Isolated(s: Space, k: nat, kdir: nat, es: seq<Event>, e: nat, p: nat)
    requires SpaceInv(s, k, kdir) && e in s.dirs && p < PAGES
    requires forall i :: 0 <= i < |es| && es[i].Map? ==> es[i].d != e
    ensures Translate(Run(s, k, kdir, es).m, e, p) == Translate(s.m, e, p)
    decreases |es|
  {
    hide MemInv, Translate, MapRange, WithDir;
    if es != [] {
      var n := if Enabled(s, k, es[0]) then Step(s, k, kdir, es[0]) else s;
      if Enabled(s, k, es[0]) {
        match es[0] {
          case Map(d, q, frame, n, flags) => MapRangeEffect(s.m, s.dirs, k, d, q, frame, n, flags, e, p);
          case NewDir => WithDirEffect(s.m, s.dirs, k, kdir, e, p);
        }
      }
      Isolated(n, k, kdir, es[1..], e, p);
    }
  }

  /** Every address space sees the kernel's part as the kernel does. */
  ghost predicate Shared(s: Space, k: nat, kdir: nat) {
    forall e: nat, p: nat :: e in s.dirs && p < PAGES && p < k * ENTRIES ==>
      Translate(s.m, e, p) == Translate(s.m, kdir, p)
  }

  lemma {:induction false} StepShared(s: Space, k: nat, kdir: nat, ev: Event)
    requires SpaceInv(s, k, kdir) && Enabled(s, k, ev) && Shared(s, k, kdir)
    ensures Shared(Step(s, k, kdir, ev), k, kdir)
  {
    hide MemInv, Translate, MapRange, WithDir;
    var r := Step(s, k, kdir, ev);
    forall e: nat, p: nat | e in r.dirs && p < PAGES && p < k * ENTRIES
      ensures Translate(r.m, e, p) == Translate(r.m, kdir, p)
    {
      match ev {
        case Map(d, q, frame, n, flags) =>
          MapRangeEffect(s.m, s.dirs, k, d, q, frame, n, flags, e, p);
          MapRangeEffect(s.m, s.dirs, k, d, q, frame, n, flags, kdir, p);
        case NewDir =>
          WithDirEffect(s.m, s.dirs, k, kdir, if e in s.dirs then e else kdir, p);
          WithDirEffect(s.m, s.dirs, k, kdir, kdir, p);
      }
    }
  }

  lemma {:induction false} KernelShared(s: Space, k: nat, kdir: nat, es: seq<Event>)
    requires SpaceInv(s, k, kdir) && Shared(s, k, kdir)
    ensures Shared(Run(s, k, kdir, es), k, kdir)
    decreases |es|
  {
    hide SpaceInv, Shared, Step, Enabled;
    if es != [] {
      if Enabled(s, k, es[0]) {
        StepShared(s, k, kdir, es[0]);
        KernelShared(Step(s, k, kdir, es[0]), k, kdir, es[1..]);
      } else {
        KernelShared(s, k, kdir, es[1..]);
      }
    }
  }

  /** From boot on, all address spaces see the kernel's part alike. */
  lemma {:induction false} SharedFromBoot(m: Mem, k: nat, kdir: nat, es: seq<Event>)
    requires Booted(m, k, kdir)
    ensures SpaceInv(Space(m, {kdir}), k, kdir) && Shared(Run(Space(m, {kdir}), k, kdir, es), k, kdir)
  {
    hide Booted, SpaceInv, Shared, Run;
    BootedOk(m, k, kdir);
    KernelShared(Space(m, {kdir}), k, kdir, es);
  }

  // ------------------------------------------------------------------ the code

  class Mmu {
    const kdir: nat
    const k: nat
    var tables: map<nat, Table>
    var pool: seq<nat>
    ghost var dirs: set<nat>

    ghost function Value(): (r: Space)
      reads this
    {
      Space(Mem(tables, pool), dirs)
    }

    ghost predicate Valid()
      reads this
    {
      SpaceInv(Value(), k, kdir)
    }

    /** find_pte_alloc with alloc: the frame of the page table for `q`. */
    method FindPteAlloc(d: nat, q: nat) returns (f: nat)
      requires HasFrame(Value().m, d, q) && (pool != [] ==> d != pool[0])
      modifies this`tables, this`pool
      ensures Value().m == WithTable(old(Value().m), d, q) && d in tables && f == TableFrame(Value().m, d, q)
    {
      var pde := tables[d][PdeIndex(q)];
      if Present(pde) {
        return FrameOf(pde);
      }
      f := pool[0];
      pool := pool[1..];
      tables := tables[d := tables[d][PdeIndex(q) := TableEntry(f)]];
      tables := tables[f := Zeros()];
    }

    /** create_mem_map. */
    method CreateMemMap(d: nat, q: nat, frame: nat, n: nat, flags: nat) returns (ok: bool)
      requires Valid() && MapPre(Value().m, dirs, k, d, q, n) && flags < PAGE
      modifies this`tables, this`pool
      ensures Valid() && Value().m == MapRange(old(Value().m), dirs, k, d, q, frame, n, flags).0
      ensures ok <==> MapRange(old(Value().m), dirs, k, d, q, frame, n, flags).1 == n
    {
      hide MemInv, Translate, WithTable, WithPage, Entry, TableFrame, PdeIndex, PteIndex, Present, Needed, Low, FrameOf;
      ghost var all := MapRange(Value().m, dirs, k, d, q, frame, n, flags);
      var i := 0;
      while i < n
        invariant i <= n && MapPre(Value().m, dirs, k, d, q + i, n - i)
        invariant MapRange(Value().m, dirs, k, d, q + i, frame + i, n - i, flags) == (all.0, all.1 - i)
        decreases n - i
      {
        OneRound(Value().m, dirs, k, d, q + i, n - i);
        PoolApart(Value().m, dirs, k, d);
        ghost var before := Value().m;
        var f := FindPteAlloc(d, q + i);
        assert Value().m == WithTable(before, d, q + i);
        assert f in tables by { TableThere(Value().m, dirs, k, d, q + i); }
        if Present(tables[f][PteIndex(q + i)]) {
          return false;
        }
        RestNeeded(before, dirs, k, d, q + i, n - i, Entry(frame + i, flags));
        ghost var middle := Value().m;
        tables := tables[f := tables[f][PteIndex(q + i) := Entry(frame + i, flags)]];
        assert Value().m == WithPage(middle, d, q + i, Entry(frame + i, flags)) by {
          WrittenPage(middle, tables, d, q + i, f, Entry(frame + i, flags));
        }
        i := i + 1;
      }
      ok := true;
    }

    /** create_uvm. */
    method CreateUvm() returns (d: nat)
      requires Valid() && pool != []
      modifies this`tables, this`pool, this`dirs
      ensures Valid() && d == old(pool[0]) && Value() == Step(old(Value()), k, kdir, NewDir)
    {
      ghost var s := Value();
      WithDirInv(s.m, dirs, k, kdir);
      assert pool[0] in pool;
      d := pool[0];
      pool := pool[1..];
      tables := tables[d := Zeros()];
      hide MemInv, Present;
      var i := k;
      assert tables[d] == Zeros();
      while i > 0
        modifies this`tables
        invariant 0 <= i <= k && d in tables && tables == s.m.tables[d := tables[d]]
        invariant forall j :: 0 <= j < ENTRIES ==>
          tables[d][j] == if i <= j < k && Present(s.m.tables[kdir][j]) then s.m.tables[kdir][j] else 0
      {
        i := i - 1;
        if Present(tables[kdir][i]) {
          tables := tables[d := tables[d][i := tables[kdir][i]]];
        }
      }
      assert tables[d] == UserDir(s.m.tables[kdir], k);
      dirs := dirs + {d};
    }
  }

  lemma {:induction false} PoolApart(m: Mem, dirs: set<nat>, k: nat, d: nat)
    requires MemInv(m, dirs, k) && d in dirs
    ensures m.pool != [] ==> d != m.pool[0]
  {
    assert m.pool != [] ==> m.pool[0] in m.pool;
  }

  lemma {:induction false} WrittenPage(m: Mem, tables: map<nat, Table>, d: nat, q: nat, f: nat, v: nat)
    requires q < PAGES && d in m.tables && f == TableFrame(m, d, q) && f in m.tables
    requires tables == m.tables[f := m.tables[f][PteIndex(q) := v]]
    ensures Mem(tables, m.pool) == WithPage(m, d, q, v)
  {
  }
}
