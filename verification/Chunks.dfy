/** Flat bytes and their division into consecutive chunks. A packet buffer stores its
    bytes as a chain of chunks; everything here is about plain values. */
module Chunks {
  const TWO16 := 0x1_0000
  const TWO32 := 0x1_0000_0000

  type Byte = x: int | 0 <= x < 256

  datatype Option<+T> = None | Some(value: T)

  /** The part of net_err.h that the modelled operations return. */
  datatype NetErr = OK | PARAM | EXIST | NONE | SIZE | FULL | MEM | CHECKSUM | NOT_SUPPORT | NOT_MATCH {
    predicate Failed() { !OK? }
  }

  function Min(a: int, b: int): (r: int)
    ensures r <= a && r <= b && (r == a || r == b)
  {
    if a < b then a else b
  }

  /** The flat bytes of a division into chunks. */
  function Concat(cs: seq<seq<Byte>>): (r: seq<Byte>) {
    if cs == [] then [] else cs[0] + Concat(cs[1..])
  }

  /** `s` with the bytes from `at` on overwritten by `d`. */
  function Splice(s: seq<Byte>, at: int, d: seq<Byte>): (r: seq<Byte>)
    requires 0 <= at && at + |d| <= |s|
    ensures |r| == |s|
    ensures forall k :: 0 <= k < |s| ==> r[k] == if at <= k < at + |d| then d[k - at] else s[k]
  {
    seq(|s|, k requires 0 <= k < |s| => if at <= k < at + |d| then d[k - at] else s[k])
  }

  lemma {:induction false} ConcatAppend(a: seq<seq<Byte>>, b: seq<seq<Byte>>)
    ensures Concat(a + b) == Concat(a) + Concat(b)
  {
    if a == [] {
      assert a + b == b;
    } else {
      ConcatAppend(a[1..], b);
      assert (a + b)[1..] == a[1..] + b;
      assert a[0] + (Concat(a[1..]) + Concat(b)) == a[0] + Concat(a[1..]) + Concat(b);
    }
  }

  lemma {:induction false} ConcatOne(c: seq<Byte>)
    ensures Concat([c]) == c
  {
    assert Concat([c]) == c + Concat([]);
  }

  lemma {:induction false} ConcatSplit(cs: seq<seq<Byte>>, k: nat)
    requires k <= |cs|
    ensures Concat(cs) == Concat(cs[..k]) + Concat(cs[k..])
  {
    assert cs == cs[..k] + cs[k..];
    ConcatAppend(cs[..k], cs[k..]);
  }

  lemma {:induction false} ConcatLast(cs: seq<seq<Byte>>, c: seq<Byte>)
    ensures Concat(cs + [c]) == Concat(cs) + c
  {
    ConcatAppend(cs, [c]);
    ConcatOne(c);
  }

  /** The chunk at `k` sits between the bytes before it and the bytes after it. */
  lemma {:induction false} ConcatAt(cs: seq<seq<Byte>>, k: nat)
    requires k < |cs|
    ensures Concat(cs) == Concat(cs[..k]) + (cs[k] + Concat(cs[k + 1..]))
  {
    ConcatSplit(cs, k);
    assert cs[k..][1..] == cs[k + 1..];
  }

  lemma {:induction false} SpliceInside(a: seq<Byte>, c: seq<Byte>, b: seq<Byte>, off: nat, d: seq<Byte>)
    requires off + |d| <= |c|
    ensures a + (Splice(c, off, d) + b) == Splice(a + (c + b), |a| + off, d)
  {
  }

  lemma {:induction false} SliceInside(a: seq<Byte>, c: seq<Byte>, b: seq<Byte>, off: nat, n: nat)
    requires off + n <= |c|
    ensures (a + (c + b))[|a| + off..|a| + off + n] == c[off..off + n]
  {
  }

  /** `cur` is `s` with `i` bytes of `src`, from index `q` on, written at `at`. */
  ghost predicate Written(cur: seq<Byte>, s: seq<Byte>, at: int, src: seq<Byte>, q: int, i: int) {
    && 0 <= at && 0 <= q && 0 <= i && at + i <= |s| && q + i <= |src| && |cur| == |s|
    && forall k :: 0 <= k < |s| ==> cur[k] == if at <= k < at + i then src[q + k - at] else s[k]
  }

  lemma {:induction false} WrittenAll(cur: seq<Byte>, s: seq<Byte>, at: int, src: seq<Byte>, q: int, i: int)
    requires Written(cur, s, at, src, q, i)
    ensures cur == Splice(s, at, src[q..q + i])
  {
  }

  lemma {:induction false} WrittenNone(s: seq<Byte>, at: int, src: seq<Byte>, q: int)
    requires 0 <= at <= |s| && 0 <= q <= |src|
    ensures Written(s, s, at, src, q, 0)
  {
  }

  /** Writing the next `n` bytes behind the `i` bytes already written. */
  lemma {:induction false} WrittenMore(cur: seq<Byte>, s: seq<Byte>, at: int, src: seq<Byte>, q: int, i: int,
                                       d: seq<Byte>)
    requires Written(cur, s, at, src, q, i) && at + i + |d| <= |s| && q + i + |d| <= |src|
    requires d == src[q + i..q + i + |d|]
    ensures Written(Splice(cur, at + i, d), s, at, src, q, i + |d|)
  {
  }

  lemma {:induction false} DropDrop(s: seq<Byte>, a: nat, b: nat)
    requires a + b <= |s|
    ensures s[a..][b..] == s[a + b..]
  {
  }

  lemma {:induction false} TakeOfSlice(s: seq<Byte>, a: nat, n: nat, cut: nat)
    requires cut <= n && a + n <= |s|
    ensures s[a..a + n][..cut] == s[a..a + cut]
  {
  }

  lemma {:induction false} SubSlice(s: seq<Byte>, a: nat, size: nat, i: nat, n: nat)
    requires a + size <= |s| && i + n <= size
    ensures s[a..a + size][i..i + n] == s[a + i..a + i + n]
  {
    var l, r := s[a..a + size][i..i + n], s[a + i..a + i + n];
    assert forall k :: 0 <= k < n ==> l[k] == r[k];
  }
}
