/** The Internet checksum of kernel/net/pktbuf.c, section 1 and 2 of RFC 1071. */
module Checksum {
  import opened Chunks


  /** A 16-bit word read from two adjacent bytes, low byte first. */
  function Word(lo: Byte, hi: Byte): (r: nat)
    ensures r < TWO16 && r % 256 == lo && r / 256 == hi
  {
    var l: int, h: int := lo, hi;
    l + 256 * h
  }

  /** Integer sum of the 16-bit little-endian words of `s`, the last odd byte padded with 0. */
  function WordSum(s: seq<Byte>): (r: nat) {
    if |s| == 0 then 0
    else if |s| == 1 then s[0]
    else Word(s[0], s[1]) + WordSum(s[2..])
  }

  /** The one's-complement value of a sum: the representative in 1..65535 of its residue
      modulo 65535, except that 0 stays 0. */
  function OnesFold(n: nat): (r: nat)
    ensures r < TWO16
    ensures (r == 0) == (n == 0)
  {
    if n == 0 then 0 else (n - 1) % 65535 + 1
  }

  /** Byte by byte: a byte at an even flat offset counts once, one at an odd offset 256 times. */
  function ByteSum(s: seq<Byte>, odd: bool): (r: nat) {
    if s == [] then 0 else (if odd then 256 * s[0] else s[0]) + ByteSum(s[1..], !odd)
  }

  predicate Odd(n: int) { n % 2 == 1 }

  lemma {:induction false} WordSumIsByteSum(s: seq<Byte>)
    ensures WordSum(s) == ByteSum(s, false)
  {
    if |s| >= 2 {
      WordSumIsByteSum(s[2..]);
      assert s[1..][1..] == s[2..];
    } else if |s| == 1 {
      assert ByteSum(s[1..], true) == 0;
    }
  }

  lemma {:induction false} ByteSumAppend(a: seq<Byte>, b: seq<Byte>, odd: bool)
    ensures ByteSum(a + b, odd) == ByteSum(a, odd) + ByteSum(b, odd != Odd(|a|))
  {
    if a == [] {
      assert a + b == b;
    } else {
      ByteSumAppend(a[1..], b, !odd);
      assert (a + b)[1..] == a[1..] + b;
    }
  }

  lemma {:induction false} ByteSumBound(s: seq<Byte>, odd: bool)
    ensures 2 * ByteSum(s, odd) <= 65535 * (|s| + 1)
    ensures odd ==> 2 * ByteSum(s, odd) <= 65535 * |s| + 65280
    ensures !odd ==> ByteSum(s, odd) <= 255 + 65535 * |s| / 2
  {
    if |s| >= 2 {
      ByteSumBound(s[2..], odd);
      assert s[1..][1..] == s[2..];
      assert ByteSum(s, odd) == (if odd then 256 * s[0] + s[1] else s[0] + 256 * s[1]) + ByteSum(s[2..], odd);
    } else if |s| == 1 {
      assert ByteSum(s[1..], !odd) == 0;
    }
  }

  /** Folding early or late gives the same value. */
  lemma {:induction false} OnesFoldAbsorbs(a: nat, b: nat)
    ensures OnesFold(OnesFold(a) + b) == OnesFold(a + b)
  {
  }

  /** One end-around carry keeps the one's-complement value. */
  lemma {:induction false} OnesFoldCarry(n: nat)
    requires n >= TWO16
    ensures 0 < n / TWO16 + n % TWO16 < n
    ensures OnesFold(n / TWO16 + n % TWO16) == OnesFold(n)
  {
    var h, l := n / TWO16, n % TWO16;
    assert n - 1 == (h + l - 1) + 65535 * h;
  }

  lemma {:induction false} OnesFoldSmall(n: nat)
    requires n < TWO16
    ensures OnesFold(n) == n
  {
  }

  function Complement(w: nat): (r: nat)
    requires w < TWO16
    ensures r < TWO16 && r + w == 65535
  {
    65535 - w
  }

  /** Adding with 32-bit wrap-around. */
  function Add32(a: nat, b: nat): (r: nat)
    ensures r < TWO32
  {
    (a + b) % TWO32
  }

  lemma {:induction false} Add32Assoc(a: nat, b: nat, c: nat)
    ensures Add32(Add32(a, b), c) == Add32(a, b + c)
  {
    var q := (a + b) / TWO32;
    assert a + b == q * TWO32 + Add32(a, b);
    assert a + (b + c) == q * TWO32 + (Add32(a, b) + c);
  }

  /** The accumulating half of checksum16, on a 32-bit accumulator that wraps. */
  method SumArea(offset: nat, buf: seq<Byte>, preSum: nat) returns (sum: nat)
    requires preSum < TWO32
    requires Odd(offset) ==> buf != []
    ensures sum == Add32(preSum, ByteSum(buf, Odd(offset)))
  {
    var i := 0;
    sum := preSum;
    assert buf[0..] == buf;
    if offset % 2 == 1 {
      Add32Assoc(preSum, Word(0, buf[0]), ByteSum(buf[1..], false));
      sum := Add32(sum, Word(0, buf[0]));
      i := 1;
    }
    while |buf| - i > 1
      invariant 0 <= i <= |buf| && sum < TWO32
      invariant Add32(sum, ByteSum(buf[i..], false)) == Add32(preSum, ByteSum(buf, Odd(offset)))
    {
      ByteSumPair(buf, i);
      Add32Assoc(sum, Word(buf[i], buf[i + 1]), ByteSum(buf[i + 2..], false));
      sum := Add32(sum, Word(buf[i], buf[i + 1]));
      i := i + 2;
    }
    if |buf| - i > 0 {
      ByteSumLast(buf, i);
      sum := Add32(sum, buf[i]);
    }
  }

  lemma {:induction false} ByteSumPair(s: seq<Byte>, i: nat)
    requires i + 1 < |s|
    ensures ByteSum(s[i..], false) == Word(s[i], s[i + 1]) + ByteSum(s[i + 2..], false)
  {
    assert s[i..][1..] == s[i + 1..];
    assert s[i + 1..][1..] == s[i + 2..];
  }

  lemma {:induction false} ByteSumLast(s: seq<Byte>, i: nat)
    requires i + 1 == |s|
    ensures ByteSum(s[i..], false) == s[i]
  {
    assert s[i..][1..] == [];
  }

  /** The folding half of checksum16: it terminates and keeps the one's-complement value. */
  method FoldCarries(n: nat) returns (r: nat)
    ensures r == OnesFold(n)
  {
    r := n;
    while r / TWO16 != 0
      invariant OnesFold(r) == OnesFold(n)
      decreases r
    {
      OnesFoldCarry(r);
      r := r / TWO16 + r % TWO16;
    }
    OnesFoldSmall(r);
  }

  /** checksum16: the one's-complement sum of one contiguous area that starts `offset` bytes
      into the summed data. An area is empty only at an even offset. */
  method Checksum16(offset: nat, buf: seq<Byte>, preSum: nat, complement: bool) returns (r: nat)
    requires preSum < TWO32
    requires Odd(offset) ==> buf != []
    ensures var v := OnesFold(Add32(preSum, ByteSum(buf, Odd(offset))));
            r == if complement then Complement(v) else v
  {
    r := SumArea(offset, buf, preSum);
    r := FoldCarries(r);
    r := if complement then Complement(r) else r;
  }

  /** The 32-bit accumulator of checksum16 is exact iff it does not wrap: after a wrap the
      result is off, whatever the data. */
  lemma {:induction false} AccumulatorExactIffNoWrap(preSum: nat, buf: seq<Byte>, odd: bool)
    requires preSum < TWO32 && |buf| < TWO16
    ensures OnesFold(Add32(preSum, ByteSum(buf, odd))) == OnesFold(preSum + ByteSum(buf, odd))
       <==> preSum + ByteSum(buf, odd) < TWO32
  {
    ByteSumBound(buf, odd);
    var n := preSum + ByteSum(buf, odd);
    if n >= TWO32 {
      assert n % TWO32 == n - TWO32;
      assert TWO32 == 65535 * 65537 + 1;
    }
  }

  /** A 16-bit partial sum never makes the accumulator wrap. */
  lemma {:induction false} PartialSumFits(preSum: nat, buf: seq<Byte>, odd: bool)
    requires preSum < TWO16 && |buf| < TWO16
    ensures preSum + ByteSum(buf, odd) < TWO32
  {
    ByteSumBound(buf, odd);
  }

  /** Adding the next area to a partial sum: the accumulator and the sum of all bytes so far
      keep the same one's-complement value, whatever the parity of the boundary. */
  lemma {:induction false} NextArea(acc: nat, base: int, done: seq<Byte>, d: seq<Byte>)
    requires base + ByteSum(done, false) >= 0 && OnesFold(acc) == OnesFold(base + ByteSum(done, false))
    ensures base + ByteSum(done + d, false) >= 0
    ensures OnesFold(acc + ByteSum(d, Odd(|done|))) == OnesFold(base + ByteSum(done + d, false))
  {
    hide OnesFold, ByteSum;
    var x := ByteSum(d, Odd(|done|));
    ByteSumAppend(done, d, false);
    OnesFoldAbsorbs(acc, x);
    OnesFoldAbsorbs(base + ByteSum(done, false), x);
  }

  /** `sum` is a 16-bit partial sum of the bytes `done` on top of `base`. */
  ghost predicate Summed(sum: nat, base: int, done: seq<Byte>) {
    sum < TWO16 && base + ByteSum(done, false) >= 0 && OnesFold(sum) == OnesFold(base + ByteSum(done, false))
  }

  /** What the code starts from when the first area is added: the accumulator may wrap there. */
  ghost function Base(preSum: nat, first: seq<Byte>): (r: int) {
    if preSum + ByteSum(first, false) < TWO32 then preSum else preSum - TWO32
  }

  /** The first area is added to a 32-bit value. */
  lemma {:induction false} FirstStep(preSum: nat, d: seq<Byte>)
    requires preSum < TWO32 && |d| < TWO16
    ensures Summed(OnesFold(Add32(preSum, ByteSum(d, false))), Base(preSum, d), d)
  {
    hide OnesFold, ByteSum;
    assert ByteSum(d, false) < TWO32 by { ByteSumBound(d, false); }
    OnesFoldTwice(Add32(preSum, ByteSum(d, false)));
  }

  /** Every later one to 16 bits, which cannot wrap. */
  lemma {:induction false} LaterStep(sum: nat, base: int, area: seq<Byte>, off: nat, d: seq<Byte>)
    requires off + |d| <= |area| && d == area[off..off + |d|] && |d| < TWO16 && Summed(sum, base, area[..off])
    ensures Summed(OnesFold(Add32(sum, ByteSum(d, Odd(off)))), base, area[..off + |d|])
  {
    hide OnesFold, ByteSum, Add32;
    var x := ByteSum(d, Odd(off));
    assert area[..off + |d|] == area[..off] + d;
    PartialSumFits(sum, d, Odd(off));
    NextArea(sum, base, area[..off], d);
    Add32Small(sum, x);
    OnesFoldTwice(sum + x);
  }

  lemma {:induction false} Add32Small(a: nat, b: nat)
    requires a + b < TWO32
    ensures Add32(a, b) == a + b
  {
  }

  lemma {:induction false} OnesFoldTwice(n: nat)
    ensures OnesFold(OnesFold(n)) == OnesFold(n)
  {
  }

  /** The whole sum is exact if and only if the first area did not make the accumulator wrap. */
  lemma {:induction false} ExactIffFirstFits(sum: nat, preSum: nat, first: seq<Byte>, area: seq<Byte>)
    requires first <= area && Summed(sum, Base(preSum, first), area) && area != []
    ensures sum == OnesFold(preSum + ByteSum(area, false)) <==> preSum + ByteSum(first, false) < TWO32
  {
    hide ByteSum;
    OnesFoldSmall(sum);
    assert area == first + area[|first|..];
    ByteSumAppend(first, area[|first|..], false);
    if preSum + ByteSum(first, false) >= TWO32 {
      WrapShows(preSum + ByteSum(area, false));
    }
  }

  /** Dropping 2^32 changes the one's-complement value. */
  lemma {:induction false} WrapShows(n: nat)
    requires n >= TWO32
    ensures OnesFold(n - TWO32) != OnesFold(n)
  {
    assert TWO32 == 65535 * 65537 + 1;
  }

  lemma {:induction false} WordSumFits(s: seq<Byte>)
    requires |s| < TWO16
    ensures WordSum(s) < TWO32
  {
    WordSumIsByteSum(s);
    ByteSumBound(s, false);
  }

  /** What pktbuf_checksum16 returns for an area, computed in one pass over its flat bytes. */
  function AreaSum(area: seq<Byte>, preSum: nat): (r: nat)
    ensures r < TWO16
  {
    if area == [] then preSum % TWO16 else OnesFold(preSum + WordSum(area))
  }

  /** What a sum over blocks makes of an area: its low 16 bits are AreaSum if and only if the first
      block did not wrap. */
  lemma {:induction false} AreaSumIff(sum: nat, preSum: nat, first: seq<Byte>, area: seq<Byte>)
    requires first <= area && preSum < TWO32
    requires if area == [] then sum == preSum else Summed(sum, Base(preSum, first), area)
    ensures sum % TWO16 == AreaSum(area, preSum) <==> preSum + WordSum(first) < TWO32
    ensures preSum < TWO16 && |first| < TWO16 ==> sum % TWO16 == AreaSum(area, preSum)
  {
    hide ByteSum, WordSum, OnesFold, Base;
    WordSumIsByteSum(area);
    WordSumIsByteSum(first);
    if area == [] {
      assert first == [] && ByteSum(first, false) == 0 by { NoBytes(); }
    } else {
      ExactIffFirstFits(sum, preSum, first, area);
    }
    if preSum < TWO16 && |first| < TWO16 {
      PartialSumFits(preSum, first, false);
    }
  }

  lemma {:induction false} NoBytes()
    ensures ByteSum([], false) == 0
  {
  }

  /** The two bytes of a 16-bit value as the machine stores them, low byte first. */
  function Store16(w: nat): (r: seq<Byte>)
    requires w < TWO16
    ensures |r| == 2 && Word(r[0], r[1]) == w
  {
    [w % 256, w / 256]
  }

  /** Adding the complement of a sum makes the sum 0xffff. */
  lemma {:induction false} ComplementCloses(n: nat)
    ensures OnesFold(n + Complement(OnesFold(n))) == 65535
  {
    if n == 0 {
      assert OnesFold(n + 65535) == 65535;
    } else {
      var v := OnesFold(n);
      assert (n - v) % 65535 == 0;
    }
  }

  /** Storing a word at an even offset where there was 0 adds it to the sum. */
  lemma {:induction false} SumWithStored(s: seq<Byte>, k: nat, w: nat)
    requires k % 2 == 0 && k + 2 <= |s| && w < TWO16 && s[k] == 0 && s[k + 1] == 0
    ensures WordSum(Splice(s, k, Store16(w))) == WordSum(s) + w
  {
    var t := Splice(s, k, Store16(w));
    if k == 0 {
      assert t[2..] == s[2..];
    } else {
      SumWithStored(s[2..], k - 2, w);
      assert t[2..] == Splice(s[2..], k - 2, Store16(w));
    }
  }

  /** A message whose checksum field held 0 when the checksum was computed, and then received
      it, sums to 0xffff: the check of section 1 of RFC 1071. */
  lemma {:induction false} StoredChecksumCloses(s: seq<Byte>, k: nat)
    requires k % 2 == 0 && k + 2 <= |s| && s[k] == 0 && s[k + 1] == 0
    ensures Complement(AreaSum(Splice(s, k, Store16(Complement(AreaSum(s, 0)))), 0)) == 0
  {
    SumWithStored(s, k, Complement(AreaSum(s, 0)));
    ComplementCloses(WordSum(s));
  }
}
