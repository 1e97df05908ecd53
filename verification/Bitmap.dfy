/** The bitmap of common/lib/bitmap.c and the first-fit page allocator of kernel/memory/paging.c
    that is built on it. */
module Bitmap {
  import opened Arith
  import opened Chunks

  // ------------------------------------------------------------------ bits of bytes

  /** BITMAP_MASK << j. */
  function Mask(j: nat): (r: bv8)
    requires j < 8
  {
    1 << j
  }

  /** Is bit `j` of a byte set? */
  predicate Bit(b: bv8, j: nat)
    requires j < 8
  {
    b & Mask(j) != 0
  }

  lemma {:induction false} MaskIs(j: nat)
    requires j < 8
    ensures Mask(j) == if j == 0 then 1 else if j == 1 then 2 else if j == 2 then 4 else if j == 3 then 8
                       else if j == 4 then 16 else if j == 5 then 32 else if j == 6 then 64 else 128
  {
    if j == 0 {
    } else if j == 1 {
    } else if j == 2 {
    } else if j == 3 {
    } else if j == 4 {
    } else if j == 5 {
    } else if j == 6 {
    } else {
    }
  }

  lemma {:induction false} MasksApart(j: nat, k: nat)
    requires j < 8 && k < 8
    ensures Mask(j) & Mask(k) == (if j == k then Mask(k) else 0) && Mask(k) != 0 && (Mask(j) == Mask(k) <==> j == k)
  {
    MaskIs(j);
    MaskIs(k);
    hide Mask;
  }

  /** One bit of a byte set or cleared, as bitmap_set does it. */
  function WithBit(b: bv8, j: nat, use: bool): (r: bv8)
    requires j < 8
  {
    if use then b | Mask(j) else b & !Mask(j)
  }

  lemma {:induction false} WithBitIs(b: bv8, j: nat, use: bool, k: nat)
    requires j < 8 && k < 8
    ensures Bit(WithBit(b, j, use), k) <==> if j == k then use else Bit(b, k)
  {
    hide Mask;
    MasksApart(j, k);
    if use {
      MaskOn(b, Mask(j), Mask(k));
    } else {
      MaskOff(b, Mask(j), Mask(k));
    }
  }

  lemma {:induction false} MaskOn(b: bv8, m: bv8, n: bv8)
    ensures m == n ==> (b | m) & n == n
    ensures m & n == 0 ==> (b | m) & n == b & n
  {
  }

  lemma {:induction false} MaskOff(b: bv8, m: bv8, n: bv8)
    ensures m == n ==> (b & !m) & n == 0
    ensures m & n == 0 ==> (b & !m) & n == b & n
  {
  }

  /** A byte is 0xff if and only if all its bits are set, and 0 if and only if none is. */
  lemma {:induction false} FullEmpty(b: bv8)
    ensures b == 0xff <==> forall j :: 0 <= j < 8 ==> Bit(b, j)
    ensures b == 0 <==> forall j :: 0 <= j < 8 ==> !Bit(b, j)
  {
    MaskIs(0); MaskIs(1); MaskIs(2); MaskIs(3); MaskIs(4); MaskIs(5); MaskIs(6); MaskIs(7);
    var all := Bit(b, 0) && Bit(b, 1) && Bit(b, 2) && Bit(b, 3) && Bit(b, 4) && Bit(b, 5) && Bit(b, 6) && Bit(b, 7);
    var none := !Bit(b, 0) && !Bit(b, 1) && !Bit(b, 2) && !Bit(b, 3) && !Bit(b, 4) && !Bit(b, 5) && !Bit(b, 6) &&
                !Bit(b, 7);
    hide Mask;
    assert b == 0xff <==> all;
    assert b == 0 <==> none;
    if b == 0xff {
      forall j | 0 <= j < 8 ensures Bit(b, j) {
      }
    }
    if b == 0 {
      forall j | 0 <= j < 8 ensures !Bit(b, j) {
      }
    }
  }

  // ------------------------------------------------------------------ the bitmap

  /** bitmap_scan_test. */
  predicate SetAt(bits: seq<bv8>, i: nat)
    requires i / 8 < |bits|
  {
    Bit(bits[i / 8], i % 8)
  }

  /** `cnt` clear bits from bit `i` on. */
  ghost predicate Gap(bits: seq<bv8>, i: nat, cnt: nat)
    requires i + cnt <= 8 * |bits|
  {
    forall j :: i <= j < i + cnt ==> !SetAt(bits, j)
  }

  /** `r` is the lowest place for `cnt` clear bits among the first `n`, or -1 if there is none. */
  ghost predicate Lowest(bits: seq<bv8>, n: nat, cnt: nat, r: int)
    requires n <= 8 * |bits|
  {
    if r < 0 then r == -1 && forall i :: 0 <= i && i + cnt <= n ==> !Gap(bits, i, cnt)
    else r + cnt <= n && Gap(bits, r, cnt) && forall i :: 0 <= i < r ==> !Gap(bits, i, cnt)
  }

  /** The first clear bit, if the bits before it are all set. */
  ghost predicate FirstClear(bits: seq<bv8>, f: nat)
    requires f < 8 * |bits|
  {
    !SetAt(bits, f) && forall j :: 0 <= j < f ==> SetAt(bits, j)
  }

  /** A run that is cut off by a set bit on its left starts no earlier. */
  lemma {:induction false} NoEarlier(bits: seq<bv8>, i: nat, cnt: nat, at: nat)
    requires i <= at < i + cnt <= 8 * |bits| && SetAt(bits, at)
    ensures !Gap(bits, i, cnt)
  {
    hide SetAt;
  }

  lemma {:induction false} ByteFull(bits: seq<bv8>, byte: nat)
    requires byte < |bits|
    ensures bits[byte] == 0xff <==> forall j :: 8 * byte <= j < 8 * byte + 8 ==> SetAt(bits, j)
  {
    hide Bit;
    FullEmpty(bits[byte]);
    if forall j :: 8 * byte <= j < 8 * byte + 8 ==> SetAt(bits, j) {
      forall j | 0 <= j < 8 ensures Bit(bits[byte], j) {
        assert SetAt(bits, 8 * byte + j);
      }
    }
  }

  lemma {:induction false} ByteEmpty(bits: seq<bv8>, byte: nat)
    requires byte < |bits| && bits[byte] == 0
    ensures forall j :: 8 * byte <= j < 8 * byte + 8 ==> !SetAt(bits, j)
  {
    hide Bit;
    FullEmpty(bits[byte]);
  }

  /** The second loop of bitmap_scan. */
  method FirstClearBit(b: bv8) returns (bit: nat)
    requires b != 0xff
    ensures bit < 8 && !Bit(b, bit) && forall j :: 0 <= j < bit ==> Bit(b, j)
  {
    FullEmpty(b);
    hide Bit;
    bit := 0;
    while Bit(b, bit)
      invariant bit < 8 && forall j :: 0 <= j < bit ==> Bit(b, j)
      decreases 8 - bit
    {
      if bit == 7 {
        assert false;
      }
      bit := bit + 1;
    }
  }

  lemma {:induction false} ByteBits(bits: seq<bv8>, byte: nat, bit: nat)
    requires byte < |bits| && bit < 8 && !Bit(bits[byte], bit) && forall j :: 0 <= j < bit ==> Bit(bits[byte], j)
    requires forall j :: 0 <= j < 8 * byte ==> SetAt(bits, j)
    ensures FirstClear(bits, byte * 8 + bit)
  {
    hide Bit;
    forall j | 8 * byte <= j < 8 * byte + bit ensures SetAt(bits, j) {
      assert j / 8 == byte && j % 8 == j - 8 * byte;
    }
  }

  /** The first two loops of bitmap_scan. They read the byte behind the bitmap when it is full. */
  method ScanFirst(bits: array<bv8>, len: nat) returns (f: int)
    requires len < bits.Length
    ensures f == -1 ==> forall j :: 0 <= j < 8 * len ==> SetAt(bits[..], j)
    ensures f != -1 ==> 0 <= f < 8 * len && FirstClear(bits[..], f)
  {
    hide Bit, SetAt, FirstClear;
    var byte := 0;
    while bits[byte] == 0xff && byte < len
      invariant byte <= len && forall j :: 0 <= j < 8 * byte ==> SetAt(bits[..], j)
      decreases len - byte
    {
      ByteFull(bits[..], byte);
      byte := byte + 1;
    }
    if byte >= len {
      return -1;
    }
    var bit := FirstClearBit(bits[byte]);
    ByteBits(bits[..], byte, bit);
    f := byte * 8 + bit;
  }

  /** What a scan for no bits answers: one behind the first set bit after the first clear one. */
  ghost predicate AfterGap(bits: seq<bv8>, n: nat, r: int)
    requires n < 8 * |bits|
  {
    if r < 0 then
      r == -1 && ((forall j :: 0 <= j < n ==> SetAt(bits, j)) ||
                  exists f :: 0 <= f < n && FirstClear(bits, f) && Gap(bits, f, n + 1 - f))
    else
      0 < r <= n + 1 && SetAt(bits, r - 1) &&
      exists f :: 0 <= f < r - 1 && FirstClear(bits, f) && Gap(bits, f, r - 1 - f)
  }

  /** bitmap_scan for `len` bytes. With cnt > 1 it also looks at the bit behind the bitmap, so it
      answers for one bit more. */
  method BitmapScan(bits: array<bv8>, len: nat, cnt: nat) returns (r: int)
    requires len < bits.Length
    ensures cnt > 0 ==> Lowest(bits[..], if cnt == 1 then 8 * len else 8 * len + 1, cnt, r)
    ensures cnt == 0 ==> AfterGap(bits[..], 8 * len, r)
  {
    hide SetAt;
    var first := ScanFirst(bits, len);
    if first == -1 {
      Full(bits[..], 8 * len, cnt);
      return -1;
    }
    if cnt == 1 {
      FirstLowest(bits[..], first, 8 * len);
      return first;
    }
    var left := len * 8 - first;
    var next := first + 1;
    var found := 1;
    StartFirst(bits[..], first, cnt);
    while left > 0
      invariant 0 <= left && next + left == 8 * len + 1
      invariant 0 <= found <= next && found != cnt && Gap(bits[..], next - found, found)
      invariant cnt > 0 ==> found < cnt && (next == found || SetAt(bits[..], next - found - 1))
      invariant cnt > 0 ==> forall i :: 0 <= i && i + cnt <= next ==> !Gap(bits[..], i, cnt)
      invariant cnt == 0 ==> next - found == first
    {
      left := left - 1;
      if !SetAt(bits[..], next) {
        ExtendGap(bits[..], next, found, cnt);
        found := found + 1;
      } else {
        BreakGap(bits[..], next, cnt);
        found := 0;
      }
      if found == cnt {
        return next - cnt + 1;
      }
      next := next + 1;
    }
    r := -1;
  }

  /** A full bitmap has no gap, not even with one more bit behind it. */
  lemma {:induction false} Full(bits: seq<bv8>, n: nat, cnt: nat)
    requires n + 1 <= 8 * |bits| && forall j :: 0 <= j < n ==> SetAt(bits, j)
    ensures cnt > 0 ==> forall i :: 0 <= i && i + cnt <= n ==> !Gap(bits, i, cnt)
    ensures cnt > 1 ==> forall i :: 0 <= i && i + cnt <= n + 1 ==> !Gap(bits, i, cnt)
  {
    hide SetAt;
    forall i | cnt > 0 && 0 <= i && i + cnt <= n + 1 && i < n ensures !Gap(bits, i, cnt) {
      NoEarlier(bits, i, cnt, i);
    }
  }

  lemma {:induction false} FirstLowest(bits: seq<bv8>, f: nat, n: nat)
    requires f < n <= 8 * |bits| && FirstClear(bits, f)
    ensures Lowest(bits, n, 1, f)
  {
    hide SetAt;
    forall i | 0 <= i < f ensures !Gap(bits, i, 1) {
      NoEarlier(bits, i, 1, i);
    }
  }

  lemma {:induction false} StartFirst(bits: seq<bv8>, f: nat, cnt: nat)
    requires f < 8 * |bits| && FirstClear(bits, f) && cnt != 1
    ensures Gap(bits, f, 1) && (f == 0 || SetAt(bits, f - 1))
    ensures cnt > 0 ==> forall i :: 0 <= i && i + cnt <= f + 1 ==> !Gap(bits, i, cnt)
  {
    hide SetAt;
    forall i | cnt > 0 && 0 <= i && i + cnt <= f + 1 ensures !Gap(bits, i, cnt) {
      NoEarlier(bits, i, cnt, i);
    }
  }

  lemma {:induction false} ExtendGap(bits: seq<bv8>, next: nat, found: nat, cnt: nat)
    requires next < 8 * |bits| && found <= next && Gap(bits, next - found, found) && !SetAt(bits, next)
    requires cnt > 0 ==> found < cnt && (next == found || SetAt(bits, next - found - 1))
    requires cnt > 0 ==> forall i :: 0 <= i && i + cnt <= next ==> !Gap(bits, i, cnt)
    ensures Gap(bits, next - found, found + 1)
    ensures found + 1 < cnt ==> forall i :: 0 <= i && i + cnt <= next + 1 ==> !Gap(bits, i, cnt)
  {
    hide SetAt;
    if found + 1 < cnt <= next + 1 {
      NoEarlier(bits, next + 1 - cnt, cnt, next - found - 1);
    }
  }

  lemma {:induction false} BreakGap(bits: seq<bv8>, next: nat, cnt: nat)
    requires next < 8 * |bits| && SetAt(bits, next)
    requires cnt > 0 ==> forall i :: 0 <= i && i + cnt <= next ==> !Gap(bits, i, cnt)
    ensures cnt > 0 ==> forall i :: 0 <= i && i + cnt <= next + 1 ==> !Gap(bits, i, cnt)
  {
    hide SetAt, Gap;
    if 0 < cnt <= next + 1 {
      NoEarlier(bits, next + 1 - cnt, cnt, next);
    }
  }

  /** When the extra bit does no harm: exactly if it is set, or a place exists without it, or the
      last cnt - 1 bits are not all clear. */
  lemma {:induction false} GuardNeeded(bits: seq<bv8>, n: nat, cnt: nat, r: int)
    requires n + 1 <= 8 * |bits| && 1 < cnt && Lowest(bits, n + 1, cnt, r)
    ensures Lowest(bits, n, cnt, r) <==>
            || SetAt(bits, n) || n + 1 < cnt || !Gap(bits, n + 1 - cnt, cnt - 1)
            || exists i :: 0 <= i && i + cnt <= n && Gap(bits, i, cnt)
  {
    hide SetAt;
    if r >= 0 && r + cnt == n + 1 {
      assert !SetAt(bits, n) && Gap(bits, n + 1 - cnt, cnt - 1);
    }
    if n + 1 >= cnt && !SetAt(bits, n) && Gap(bits, n + 1 - cnt, cnt - 1) {
      assert Gap(bits, n + 1 - cnt, cnt);
    }
  }

  // ------------------------------------------------------------------ counting

  /** The plain count of set bits below `n`. */
  function CountSet(bits: seq<bv8>, n: nat): (r: nat)
    requires n <= 8 * |bits|
  {
    if n == 0 then 0 else CountSet(bits, n - 1) + (if SetAt(bits, n - 1) then 1 else 0)
  }

  lemma {:induction false} CountGap(bits: seq<bv8>, i: nat, cnt: nat)
    requires i + cnt <= 8 * |bits| && Gap(bits, i, cnt)
    ensures CountSet(bits, i + cnt) == CountSet(bits, i)
  {
    hide SetAt;
    if cnt > 0 {
      CountGap(bits, i, cnt - 1);
    }
  }

  /** count_mem_used: bitmap_foreach with a fast value of 1 skips the bytes without set bits. */
  method CountMemUsed(bits: array<bv8>, len: nat) returns (count: nat)
    requires len <= bits.Length
    ensures count == CountSet(bits[..], 8 * len)
  {
    hide SetAt;
    count := 0;
    for byte := 0 to len
      invariant count == CountSet(bits[..], 8 * byte)
    {
      if bits[byte] > 0 {
        for bit := byte * 8 to byte * 8 + 8
          invariant count == CountSet(bits[..], bit)
        {
          if SetAt(bits[..], bit) {
            count := count + 1;
          }
        }
      } else {
        ByteEmpty(bits[..], byte);
        CountGap(bits[..], 8 * byte, 8);
      }
    }
  }

  // ------------------------------------------------------------------ the allocator

  /** The bits as a value: true for a page in use. */
  ghost function View(bits: seq<bv8>): (r: seq<bool>)
    ensures |r| == 8 * |bits|
  {
    seq(8 * |bits|, i requires 0 <= i < 8 * |bits| => SetAt(bits, i))
  }

  /** `n` bits from `i` on set to `use`. */
  function Marked(view: seq<bool>, i: nat, n: nat, use: bool): (r: seq<bool>)
    ensures |r| == |view|
  {
    seq(|view|, j requires 0 <= j < |view| => if i <= j < i + n then use else view[j])
  }

  lemma {:induction false} ViewSet(bits: seq<bv8>, i: nat, use: bool)
    requires i < 8 * |bits|
    ensures View(bits[i / 8 := WithBit(bits[i / 8], i % 8, use)]) == Marked(View(bits), i, 1, use)
  {
    hide WithBit, Bit;
    var b := bits[i / 8 := WithBit(bits[i / 8], i % 8, use)];
    forall j | 0 <= j < 8 * |bits| ensures SetAt(b, j) == (if i == j then use else SetAt(bits, j)) {
      if j / 8 == i / 8 {
        WithBitIs(bits[i / 8], i % 8, use, j % 8);
      }
    }
  }

  lemma {:induction false} MarkedMore(view: seq<bool>, i: nat, n: nat, use: bool)
    ensures Marked(Marked(view, i, n, use), i + n, 1, use) == Marked(view, i, n + 1, use)
    ensures Marked(view, i, 0, use) == view
  {
  }

  /** Giving back what was just allocated restores the bitmap. */
  lemma {:induction false} FreeRestores(bits: seq<bv8>, i: nat, n: nat)
    requires i + n <= 8 * |bits| && Gap(bits, i, n)
    ensures Marked(Marked(View(bits), i, n, true), i, n, false) == View(bits)
  {
    hide SetAt;
  }

  /** The result of alloc_phy_mem and alloc_vir_mem when the bitmap has no place: (uint32_t)-1. */
  const FAILED := 0xFFFF_FFFF

  /** addr_alloc_t; `bits` reaches one byte behind the bitmap. */
  class AddrAlloc {
    const bits: array<bv8>
    const len: nat
    const start: nat
    const pageSize: nat

    /** The addresses of all pages are below 2^32 - 1, and the bit behind the bitmap is set. */
    ghost predicate Valid()
      reads this, bits
    {
      && len < bits.Length && pageSize > 0 && start + 8 * len * pageSize < 0x1_0000_0000
      && SetAt(bits[..], 8 * len)
    }

    /** bitmap_set. */
    method BitmapSet(i: nat, use: bool)
      requires i < 8 * bits.Length
      modifies bits
      ensures View(bits[..]) == Marked(View(old(bits[..])), i, 1, use)
    {
      hide View, Marked, Mask;
      ViewSet(bits[..], i, use);
      if use {
        bits[i / 8] := bits[i / 8] | Mask(i % 8);
      } else {
        bits[i / 8] := bits[i / 8] & !Mask(i % 8);
      }
    }

    /** The page number of an address. */
    function PageAt(addr: nat): (r: nat)
      requires start <= addr && pageSize > 0
    {
      (addr - start) / pageSize
    }

    /** alloc_mem_use. */
    method AllocMemUse(addr: nat, n: nat, use: bool)
      requires start <= addr && pageSize > 0 && PageAt(addr) + n <= 8 * bits.Length
      modifies bits
      ensures View(bits[..]) == Marked(View(old(bits[..])), PageAt(addr), n, use)
    {
      hide View, Marked;
      var i := PageAt(addr);
      ghost var v := View(bits[..]);
      MarkedMore(v, i, 0, use);
      for k := 0 to n
        invariant View(bits[..]) == Marked(v, i, k, use)
      {
        BitmapSet(i + k, use);
        MarkedMore(v, i, k, use);
      }
    }

    /** alloc_phy_mem and alloc_vir_mem: the lowest place for the pages is taken, and nothing else
        changes; it fails exactly if there is no place. A request for no pages takes none and
        answers what the scan does. */
    method Alloc(count: nat) returns (addr: nat)
      requires Valid()
      modifies bits
      ensures Valid()
      ensures count > 0 ==>
        (addr == FAILED <==> forall i :: 0 <= i && i + count <= 8 * len ==> !Gap(old(bits[..]), i, count))
      ensures addr == FAILED || count == 0 ==> View(bits[..]) == View(old(bits[..]))
      ensures addr != FAILED && count > 0 ==>
        exists i :: 0 <= i && i + count <= 8 * len && addr == start + i * pageSize &&
                    Lowest(old(bits[..]), 8 * len, count, i) &&
                    View(bits[..]) == Marked(View(old(bits[..])), i, count, true)
      ensures count == 0 ==>
        exists r :: AfterGap(old(bits[..]), 8 * len, r) &&
                    addr == if r < 0 then FAILED else (start + r * pageSize) % TWO32
    {
      hide SetAt, Marked, View;
      ghost var was := bits[..];
      var i := BitmapScan(bits, len, count);
      if count > 0 {
        ScanGuarded(was, 8 * len, count, i);
      }
      if i < 0 {
        return FAILED;
      }
      if count > 0 {
        PageInRange(start, i, count, 8 * len, pageSize);
        Exact(i, pageSize);
        addr := start + i * pageSize;
        AllocMemUse(addr, count, true);
        GuardStays(was, bits[..], i, count, 8 * len, true);
      } else {
        addr := (start + i * pageSize) % TWO32;
      }
    }

    /** free_phy_mem and free_vir_mem of pages of this allocator. */
    method Free(addr: nat, count: nat)
      requires Valid() && start <= addr && PageAt(addr) + count <= 8 * len
      modifies bits
      ensures Valid() && View(bits[..]) == Marked(View(old(bits[..])), PageAt(addr), count, false)
    {
      hide SetAt, Marked, View;
      ghost var was := bits[..];
      AllocMemUse(addr, count, false);
      GuardStays(was, bits[..], PageAt(addr), count, 8 * len, false);
    }
  }

  /** With the guard bit set, the scan answers for the bitmap proper. */
  lemma {:induction false} ScanGuarded(bits: seq<bv8>, n: nat, cnt: nat, r: int)
    requires n + 1 <= 8 * |bits| && 0 < cnt && SetAt(bits, n) && Lowest(bits, if cnt == 1 then n else n + 1, cnt, r)
    ensures Lowest(bits, n, cnt, r)
  {
    hide SetAt, Lowest;
    if cnt > 1 {
      GuardNeeded(bits, n, cnt, r);
    }
  }

  lemma {:induction false} PageInRange(start: nat, i: nat, count: nat, n: nat, pageSize: nat)
    requires 0 < count && i + count <= n && pageSize > 0
    ensures start + i * pageSize < start + n * pageSize
  {
    MulOrder(i, n, pageSize);
  }

  lemma {:induction false} GuardStays(a: seq<bv8>, b: seq<bv8>, i: nat, count: nat, n: nat, use: bool)
    requires |a| == |b| && n < 8 * |a| && i + count <= n && View(b) == Marked(View(a), i, count, use) && SetAt(a, n)
    ensures SetAt(b, n)
  {
    hide SetAt;
    assert View(b)[n] == Marked(View(a), i, count, use)[n];
  }

  // ------------------------------------------------------------------ every run of allocations

  /** Pages handed out and not given back. */
  datatype Extent = Extent(at: nat, count: nat)

  datatype Pages = Pages(used: seq<bool>, live: seq<Extent>)

  datatype Event = Take(at: nat, count: nat) | GiveBack(k: nat)

  ghost predicate AllClear(used: seq<bool>, at: nat, count: nat) {
    at + count <= |used| && forall j :: at <= j < at + count ==> !used[j]
  }

  /** A Take is what Alloc does when it succeeds, a GiveBack frees a live extent. */
  ghost predicate Enabled(p: Pages, e: Event) {
    match e
    case Take(at, count) => AllClear(p.used, at, count)
    case GiveBack(k) => k < |p.live|
  }

  ghost function Step(p: Pages, e: Event): (r: Pages)
    requires Enabled(p, e)
  {
    match e
    case Take(at, count) => Pages(Marked(p.used, at, count, true), p.live + [Extent(at, count)])
    case GiveBack(k) => Pages(Marked(p.used, p.live[k].at, p.live[k].count, false), p.live[..k] + p.live[k + 1..])
  }

  predicate In(x: Extent, j: nat) {
    x.at <= j < x.at + x.count
  }

  /** A page is in use exactly if it is in a live extent, and it is in no two. */
  ghost predicate PagesOk(p: Pages) {
    && (forall k :: 0 <= k < |p.live| ==> p.live[k].at + p.live[k].count <= |p.used|)
    && (forall j :: 0 <= j < |p.used| ==> (p.used[j] <==> exists k :: 0 <= k < |p.live| && In(p.live[k], j)))
    && (forall a, b, j :: 0 <= a < b < |p.live| && 0 <= j < |p.used| ==> !(In(p.live[a], j) && In(p.live[b], j)))
  }

  lemma {:induction false} TakeOk(p: Pages, at: nat, count: nat)
    requires PagesOk(p) && AllClear(p.used, at, count)
    ensures PagesOk(Step(p, Take(at, count)))
  {
    hide In;
    var r, x := Step(p, Take(at, count)), Extent(at, count);
    forall j | 0 <= j < |r.used| ensures r.used[j] <==> exists k :: 0 <= k < |r.live| && In(r.live[k], j) {
      InOne(x, j);
      if p.used[j] {
        var k :| 0 <= k < |p.live| && In(p.live[k], j);
        assert In(r.live[k], j);
      }
      if at <= j < at + count {
        assert In(r.live[|p.live|], j);
      }
    }
    forall a, b, j | 0 <= a < b < |r.live| && 0 <= j < |r.used| ensures !(In(r.live[a], j) && In(r.live[b], j)) {
      InOne(x, j);
      if b == |p.live| && In(r.live[a], j) {
        assert In(p.live[a], j) && p.used[j];
      }
    }
  }

  lemma {:induction false} InOne(x: Extent, j: nat)
    ensures In(x, j) <==> x.at <= j < x.at + x.count
  {
  }

  lemma {:induction false} GiveBackOk(p: Pages, k: nat)
    requires PagesOk(p) && k < |p.live|
    ensures PagesOk(Step(p, GiveBack(k)))
  {
    hide In;
    var r, x := Step(p, GiveBack(k)), p.live[k];
    forall j | 0 <= j < |r.used| ensures r.used[j] <==> exists i :: 0 <= i < |r.live| && In(r.live[i], j) {
      InOne(x, j);
      if r.used[j] {
        var i :| 0 <= i < |p.live| && In(p.live[i], j);
        assert In(r.live[if i < k then i else i - 1], j);
      }
      if i :| 0 <= i < |r.live| && In(r.live[i], j) {
        assert In(p.live[if i < k then i else i + 1], j);
      }
    }
    forall a, b, j | 0 <= a < b < |r.live| && 0 <= j < |r.used| ensures !(In(r.live[a], j) && In(r.live[b], j)) {
      assert r.live[a] == p.live[if a < k then a else a + 1];
      assert r.live[b] == p.live[if b < k then b else b + 1];
    }
  }

  ghost function Run(p: Pages, es: seq<Event>): (r: Pages)
    decreases |es|
  {
    if es == [] then p else Run(if Enabled(p, es[0]) then Step(p, es[0]) else p, es[1..])
  }

  /** Over every run, live allocations never overlap and the bitmap is exactly their union. */
  lemma {:induction false} NeverOverlap(p: Pages, es: seq<Event>)
    requires PagesOk(p)
    ensures PagesOk(Run(p, es))
    decreases |es|
  {
    hide PagesOk, Step, Enabled;
    if es != [] {
      if Enabled(p, es[0]) {
        StepOk(p, es[0]);
        NeverOverlap(Step(p, es[0]), es[1..]);
      } else {
        NeverOverlap(p, es[1..]);
      }
    }
  }

  lemma {:induction false} StepOk(p: Pages, e: Event)
    requires PagesOk(p) && Enabled(p, e)
    ensures PagesOk(Step(p, e))
  {
    hide PagesOk;
    match e {
      case Take(at, count) => TakeOk(p, at, count);
      case GiveBack(k) => GiveBackOk(p, k);
    }
  }

  /** A successful Alloc is a Take of a run. */
  lemma {:induction false} AllocTakes(bits: seq<bv8>, after: seq<bv8>, n: nat, i: nat, count: nat, live: seq<Extent>)
    requires n <= 8 * |bits| && |after| == |bits| && Lowest(bits, n, count, i)
    requires View(after) == Marked(View(bits), i, count, true)
    ensures Enabled(Pages(View(bits)[..n], live), Take(i, count))
    ensures Step(Pages(View(bits)[..n], live), Take(i, count)) == Pages(View(after)[..n], live + [Extent(i, count)])
  {
    hide SetAt;
    assert Marked(View(bits)[..n], i, count, true) == View(after)[..n];
  }

  /** And a Free of pages handed out is a GiveBack. */
  lemma {:induction false} FreeGivesBack(bits: seq<bv8>, after: seq<bv8>, n: nat, live: seq<Extent>, k: nat)
    requires n <= 8 * |bits| && |after| == |bits| && k < |live|
    requires View(after) == Marked(View(bits), live[k].at, live[k].count, false)
    ensures Enabled(Pages(View(bits)[..n], live), GiveBack(k))
    ensures Step(Pages(View(bits)[..n], live), GiveBack(k)) == Pages(View(after)[..n], live[..k] + live[k + 1..])
  {
    hide SetAt;
    assert Marked(View(bits)[..n], live[k].at, live[k].count, false) == View(after)[..n];
  }

  /** A run begins with every page free. */
  lemma {:induction false} StartOk(n: nat)
    ensures PagesOk(Pages(seq(n, i => false), []))
  {
  }
}
