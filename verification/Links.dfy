/** The doubly linked list of common/lib/list.c at the level of its pointers: nodes are numbers,
    their links are in memory that all lists share. */
module Links {
  import opened Lists

  const NULL := -1

  /** The links of all nodes. */
  datatype Mem = Mem(pre: seq<int>, next: seq<int>) {
    predicate Has(n: int) { 0 <= n < |pre| && n < |next| }
  }

  /** The nodes of `c`, from a head to a tail, are linked in both directions and in this order. */
  ghost predicate Linked(m: Mem, c: seq<nat>) {
    && |c| >= 2 && NoDup(c) && (forall i :: 0 <= i < |c| ==> m.Has(c[i]))
    && (forall i :: 0 <= i < |c| - 1 ==> m.next[c[i]] == c[i + 1])
    && (forall i :: 0 < i < |c| ==> m.pre[c[i]] == c[i - 1])
  }

  lemma {:induction false} LinkAt(m: Mem, c: seq<nat>, i: nat)
    requires Linked(m, c) && i < |c|
    ensures m.Has(c[i])
    ensures i + 1 < |c| ==> m.Has(c[i + 1]) && m.next[c[i]] == c[i + 1] && m.pre[c[i + 1]] == c[i] && c[i] != c[i + 1]
  {
  }

  /** Node `n` put between `p` and `x`. */
  function Between(m: Mem, p: nat, x: nat, n: nat): (r: Mem)
    requires m.Has(p) && m.Has(x) && m.Has(n)
  {
    Mem(m.pre[n := p][x := n], m.next[n := x][p := n])
  }

  /** What `remove` does to the links: the neighbours that the node names are joined. */
  function Unlink(m: Mem, n: nat): (r: Mem)
    requires m.Has(n)
  {
    var p, x := m.pre[n], m.next[n];
    if m.Has(p) && m.Has(x) then Mem(m.pre[x := p], m.next[p := x]) else m
  }

  lemma {:induction false} InsertNoDup(c: seq<nat>, k: nat, n: nat)
    requires NoDup(c) && k < |c| && n !in c
    ensures NoDup(c[..k + 1] + [n] + c[k + 1..])
  {
    var r := c[..k + 1] + [n] + c[k + 1..];
    forall i, j | 0 <= i < j < |r| ensures r[i] != r[j] {
      assert i != k + 1 ==> r[i] == c[if i <= k then i else i - 1];
      assert j != k + 1 ==> r[j] == c[if j <= k then j else j - 1];
    }
  }

  lemma {:induction false} Insert(m: Mem, c: seq<nat>, k: nat, n: nat)
    requires Linked(m, c) && k + 1 < |c| && n !in c && m.Has(n)
    ensures Linked(Between(m, c[k], c[k + 1], n), c[..k + 1] + [n] + c[k + 1..])
  {
    InsertNoDup(c, k, n);
    var r, t := Between(m, c[k], c[k + 1], n), c[..k + 1] + [n] + c[k + 1..];
    forall i | 0 <= i < |t| - 1 ensures r.next[t[i]] == t[i + 1] {
      assert i != k + 1 ==> t[i] == c[if i <= k then i else i - 1];
    }
    forall i | 0 < i < |t| ensures r.pre[t[i]] == t[i - 1] {
      assert i != k + 1 ==> t[i] == c[if i <= k then i else i - 1];
    }
  }

  lemma {:induction false} CutNoDup(c: seq<nat>, k: nat)
    requires NoDup(c) && k < |c|
    ensures NoDup(c[..k] + c[k + 1..])
  {
    var r := c[..k] + c[k + 1..];
    forall i, j | 0 <= i < j < |r| ensures r[i] != r[j] {
      assert r[i] == c[if i < k then i else i + 1] && r[j] == c[if j < k then j else j + 1];
    }
  }

  /** Removing a node that is in the list. Its own links are left as they were. */
  lemma {:induction false} Cut(m: Mem, c: seq<nat>, k: nat)
    requires Linked(m, c) && 0 < k < |c| - 1
    ensures Linked(Unlink(m, c[k]), c[..k] + c[k + 1..])
    ensures Unlink(m, c[k]).pre[c[k]] == c[k - 1] && Unlink(m, c[k]).next[c[k]] == c[k + 1]
  {
    CutNoDup(c, k);
    var r, t := Unlink(m, c[k]), c[..k] + c[k + 1..];
    assert r == Mem(m.pre[c[k + 1] := c[k - 1]], m.next[c[k - 1] := c[k + 1]]);
    forall i | 0 <= i < |t| - 1 ensures r.next[t[i]] == t[i + 1] {
      var j := if i < k then i else i + 1;
      assert t[i] == c[j] && (i == k - 1 || t[i + 1] == c[j + 1]);
      assert m.next[c[j]] == c[j + 1];
    }
    forall i | 0 < i < |t| ensures r.pre[t[i]] == t[i - 1] {
      var j := if i < k then i else i + 1;
      assert t[i] == c[j] && (i == k || t[i - 1] == c[j - 1]);
      assert m.pre[c[j]] == c[j - 1];
    }
  }

  /** A list is not disturbed by changes to links of other nodes. */
  lemma {:induction false} Elsewhere(m: Mem, r: Mem, c: seq<nat>)
    requires Linked(m, c) && |r.pre| == |m.pre| && |r.next| == |m.next|
    requires forall i :: 0 <= i < |c| ==> r.pre[c[i]] == m.pre[c[i]] && r.next[c[i]] == m.next[c[i]]
    ensures Linked(r, c)
  {
    hide NoDup;
  }

  /** The node's links point into the list as if it stood between two neighbours, or not at all. */
  ghost predicate Agrees(c: seq<nat>, p: int, x: int) {
    && (forall i :: 0 <= i < |c| - 1 && c[i] == p ==> c[i + 1] == x)
    && (forall i :: 0 < i < |c| && c[i] == x ==> c[i - 1] == p)
  }

  /** `remove` of a node that is not in the list leaves the list alone if and only if a link of the
      node is NULL or the two nodes that its links name are neighbours in it or outside it. */
  lemma {:induction false} RemoveStaleIff(m: Mem, c: seq<nat>, n: nat)
    requires Linked(m, c) && m.Has(n) && n !in c
    ensures Linked(Unlink(m, n), c) <==> !m.Has(m.pre[n]) || !m.Has(m.next[n]) || Agrees(c, m.pre[n], m.next[n])
  {
    hide NoDup;
    var p, x := m.pre[n], m.next[n];
    if m.Has(p) && m.Has(x) {
      var r := Unlink(m, n);
      if Linked(r, c) {
        forall i | 0 <= i < |c| - 1 && c[i] == p ensures c[i + 1] == x {
          assert r.next[c[i]] == c[i + 1];
        }
        forall i | 0 < i < |c| && c[i] == x ensures c[i - 1] == p {
          assert r.pre[c[i]] == c[i - 1];
        }
      }
    }
  }

  // Three states of a memory of five nodes.
  const FULL := Mem([NULL, 4, 0, NULL, 2], [2, NULL, 4, NULL, 1])
  const CUT := Mem([NULL, 2, 0, NULL, 2], [2, NULL, 1, NULL, 1])
  const PUSHED := Mem([NULL, 3, 0, 2, 2], [2, NULL, 3, 1, 1])

  /** It can go wrong: node 4 is removed from the list 2, 4 between head 0 and tail 1, node 3 is
      pushed at the end, and removing 4 once more unlinks 3. */
  lemma {:induction false} RemoveTwiceLosesANode()
    ensures Linked(FULL, [0, 2, 4, 1]) && Unlink(FULL, 4) == CUT
    ensures Linked(CUT, [0, 2, 1]) && Between(CUT, 2, 1, 3) == PUSHED
    ensures Linked(PUSHED, [0, 2, 3, 1]) && Linked(Unlink(PUSHED, 4), [0, 2, 1])
  {
    assert Unlink(FULL, 4).pre == CUT.pre && Unlink(FULL, 4).next == CUT.next;
    assert Between(CUT, 2, 1, 3).pre == PUSHED.pre && Between(CUT, 2, 1, 3).next == PUSHED.next;
    FourLinked(FULL, 0, 2, 4, 1);
    FourLinked(PUSHED, 0, 2, 3, 1);
    ThreeLinked(CUT, 0, 2, 1);
    ThreeLinked(Unlink(PUSHED, 4), 0, 2, 1);
  }

  lemma {:induction false} ThreeLinked(m: Mem, a: nat, b: nat, c: nat)
    requires m.Has(a) && m.Has(b) && m.Has(c) && a != b && b != c && a != c
    requires m.next[a] == b && m.next[b] == c && m.pre[b] == a && m.pre[c] == b
    ensures Linked(m, [a, b, c])
  {
  }

  lemma {:induction false} FourLinked(m: Mem, a: nat, b: nat, c: nat, d: nat)
    requires m.Has(a) && m.Has(b) && m.Has(c) && m.Has(d) && a != b && a != c && a != d && b != c && b != d && c != d
    requires m.next[a] == b && m.next[b] == c && m.next[c] == d && m.pre[b] == a && m.pre[c] == b && m.pre[d] == c
    ensures Linked(m, [a, b, c, d])
  {
  }

  // ------------------------------------------------------------------ what an operation leaves alone

  /** Only nodes of `c` and `n` have changed links, and only `n` may have lost or got one. */
  ghost predicate Frame(m: Mem, r: Mem, c: seq<nat>, n: nat) {
    && |r.pre| == |m.pre| && |r.next| == |m.next|
    && (forall x: nat :: m.Has(x) && x !in c && x != n ==> r.pre[x] == m.pre[x] && r.next[x] == m.next[x])
    && (forall x: nat :: m.Has(x) && x != n ==>
          (r.pre[x] == NULL <==> m.pre[x] == NULL) && (r.next[x] == NULL <==> m.next[x] == NULL))
    && (forall x: nat :: m.Has(x) && r.pre[x] != m.pre[x] ==> r.pre[x] == NULL || r.pre[x] == n || r.pre[x] in c)
    && (forall x: nat :: m.Has(x) && r.next[x] != m.next[x] ==> r.next[x] == NULL || r.next[x] == n || r.next[x] in c)
  }

  /** A list without these nodes stays as it is. */
  lemma {:induction false} FrameOthers(m: Mem, r: Mem, c: seq<nat>, n: nat, d: seq<nat>)
    requires Frame(m, r, c, n) && Linked(m, d) && forall i :: 0 <= i < |d| ==> d[i] !in c && d[i] != n
    ensures Linked(r, d)
  {
    hide NoDup;
    Elsewhere(m, r, d);
  }

  lemma {:induction false} BetweenFrame(m: Mem, c: seq<nat>, k: nat, n: nat)
    requires Linked(m, c) && k + 1 < |c| && m.Has(n) && n !in c
    ensures Frame(m, Between(m, c[k], c[k + 1], n), c, n)
  {
    hide NoDup;
    LinkAt(m, c, k);
    assert c[k] in c && c[k + 1] in c;
  }

  /** The first node behind the head `h` taken out, with its links cleared. */
  function Popped(m: Mem, h: nat): (r: Mem)
    requires m.Has(h) && m.Has(m.next[h])
  {
    var n := m.next[h];
    var u := Unlink(m, n);
    Mem(u.pre[n := NULL], u.next[n := NULL])
  }

  lemma {:induction false} PopLinked(m: Mem, c: seq<nat>)
    requires Linked(m, c) && |c| > 2
    ensures m.Has(c[0]) && m.next[c[0]] == c[1] && m.Has(c[1]) && m.next[c[1]] == c[2] && m.Has(c[2]) &&
            c[2] != c[1] && c[1] != c[0]
    ensures Unlink(m, c[1]) == Mem(m.pre[c[2] := c[0]], m.next[c[0] := c[2]])
    ensures Linked(Popped(m, c[0]), [c[0]] + c[2..]) && Frame(m, Popped(m, c[0]), c, c[1])
  {
    hide Linked, NoDup, Frame;
    LinkAt(m, c, 0);
    LinkAt(m, c, 1);
    Cut(m, c, 1);
    var u, d := Unlink(m, c[1]), [c[0]] + c[2..];
    assert d == c[..1] + c[2..];
    ChainNoDup(m, c);
    NotThere(u, c, 1, d);
    Elsewhere(u, Popped(m, c[0]), d);
    PopFrame(m, c);
  }

  lemma {:induction false} PopFrame(m: Mem, c: seq<nat>)
    requires |c| > 2 && m.Has(c[0]) && m.Has(c[1]) && m.Has(c[2]) && c[1] != c[2] && c[0] != c[1]
    requires m.next[c[0]] == c[1] && m.next[c[1]] == c[2] && m.pre[c[1]] == c[0] && m.pre[c[2]] == c[1]
    ensures Frame(m, Popped(m, c[0]), c, c[1])
  {
    assert c[0] in c && c[1] in c && c[2] in c;
  }

  lemma {:induction false} CutFrame(m: Mem, c: seq<nat>, k: nat)
    requires Linked(m, c) && 0 < k < |c| - 1
    ensures Frame(m, Unlink(m, c[k]), c, c[k])
    ensures Unlink(m, c[k]).pre[c[k]] == m.pre[c[k]] && Unlink(m, c[k]).next[c[k]] == m.next[c[k]]
  {
    hide NoDup;
    LinkAt(m, c, k - 1);
    LinkAt(m, c, k);
    assert c[k - 1] in c && c[k] in c && c[k + 1] in c;
  }

  // ------------------------------------------------------------------ the code

  /** The memory that the lists share. */
  class Memory {
    var pre: seq<int>
    var next: seq<int>

    /** Nodes whose links are cleared. */
    constructor (nodes: nat)
      ensures Value() == Mem(seq(nodes, i => NULL), seq(nodes, i => NULL))
    {
      pre, next := seq(nodes, i => NULL), seq(nodes, i => NULL);
    }

    ghost function Value(): (r: Mem)
      reads this
    {
      Mem(pre, next)
    }
  }

  /** list: two sentinels and a size; `contents` is what it holds. */
  class List {
    const mem: Memory
    const head: nat
    const tail: nat
    var size: nat
    ghost var contents: seq<nat>

    ghost function Chain(): (r: seq<nat>)
      reads this
    {
      [head] + contents + [tail]
    }

    ghost predicate Valid()
      reads this, mem
    {
      Linked(mem.Value(), Chain()) && size == |contents|
    }

    /** init_list. */
    constructor (mem: Memory, head: nat, tail: nat)
      requires mem.Value().Has(head) && mem.Value().Has(tail) && head != tail
      modifies mem
      ensures Valid() && contents == [] && this.mem == mem && this.head == head && this.tail == tail
      ensures mem.pre == old(mem.pre)[head := NULL][tail := head] &&
              mem.next == old(mem.next)[head := tail][tail := NULL]
    {
      this.mem, this.head, this.tail := mem, head, tail;
      size, contents := 0, [];
      new;
      mem.pre := mem.pre[head := NULL][tail := head];
      mem.next := mem.next[head := tail][tail := NULL];
      assert Chain() == [head, tail];
    }

    /** pushl. Lists of other nodes stay as they are. */
    method PushL(n: nat)
      requires Valid() && n !in Chain() && mem.Value().Has(n)
      modifies this`size, this`contents, mem
      ensures Valid() && contents == [n] + old(contents) && Frame(old(mem.Value()), mem.Value(), old(Chain()), n)
      ensures mem.pre[n] != NULL && mem.next[n] != NULL
    {
      hide Linked, Frame;
      ghost var m, c := mem.Value(), Chain();
      Insert(m, c, 0, n);
      LinkAt(m, c, 0);
      BetweenFrame(m, c, 0, n);
      assert c[0] == head && c[1] == m.next[head];
      assert c[1] in c && head in c;
      mem.pre := mem.pre[n := head];
      mem.next := mem.next[n := mem.next[head]];
      mem.pre := mem.pre[mem.next[head] := n];
      mem.next := mem.next[head := n];
      size := size + 1;
      contents := [n] + contents;
      assert Chain() == c[..1] + [n] + c[1..];
      assert mem.Value() == Between(m, c[0], c[1], n);
    }

    /** pushr. */
    method PushR(n: nat)
      requires Valid() && n !in Chain() && mem.Value().Has(n)
      modifies this`size, this`contents, mem
      ensures Valid() && contents == old(contents) + [n] && Frame(old(mem.Value()), mem.Value(), old(Chain()), n)
      ensures mem.pre[n] != NULL && mem.next[n] != NULL
    {
      hide Linked, Frame;
      ghost var m, c := mem.Value(), Chain();
      ghost var k := |c| - 2;
      Insert(m, c, k, n);
      LinkAt(m, c, k);
      BetweenFrame(m, c, k, n);
      assert c[k + 1] == tail && c[k] == m.pre[tail];
      assert c[k] in c && tail in c;
      mem.pre := mem.pre[n := mem.pre[tail]];
      mem.next := mem.next[n := tail];
      mem.next := mem.next[mem.pre[tail] := n];
      mem.pre := mem.pre[tail := n];
      size := size + 1;
      contents := contents + [n];
      assert Chain() == c[..k + 1] + [n] + c[k + 1..];
      assert mem.Value() == Between(m, c[k], c[k + 1], n);
    }

    /** popl: the first node, with its links cleared, or NULL. */
    method PopL() returns (n: int)
      requires Valid()
      modifies this`size, this`contents, mem
      ensures Valid() && (n == NULL <==> old(contents) == [])
      ensures n == NULL ==> contents == [] && mem.Value() == old(mem.Value())
      ensures n != NULL ==>
        && old(contents) == [n] + contents && mem.Value().Has(n) && mem.pre[n] == NULL && mem.next[n] == NULL
        && Frame(old(mem.Value()), mem.Value(), old(Chain()), n)
    {
      hide Linked, Unlink, Frame;
      if size <= 0 {
        return NULL;
      }
      ghost var m, c := mem.Value(), Chain();
      PopLinked(m, c);
      n := mem.next[head];
      assert c[0] == head && n == c[1];
      mem.next := mem.next[head := mem.next[n]];
      mem.pre := mem.pre[mem.next[n] := head];
      mem.pre := mem.pre[n := NULL];
      mem.next := mem.next[n := NULL];
      size := size - 1;
      contents := contents[1..];
      assert Chain() == [c[0]] + c[2..];
      assert mem.Value() == Popped(m, c[0]);
    }

    /** index: the position of a node, -1 if it is not in the list. */
    method Index(n: nat) returns (i: int)
      requires Valid() && n != tail && n != head
      ensures if n in contents then
                0 <= i < |contents| && contents[i] == n && forall j :: 0 <= j < i ==> contents[j] != n
              else i == -1
    {
      hide Linked;
      ghost var m, c := mem.Value(), Chain();
      assert forall k :: 0 <= k < |contents| ==> c[k + 1] == contents[k];
      i := -1;
      assert c[0] == head;
      LinkAt(m, c, 0);
      var p := mem.next[head];
      while p != tail && p != NULL
        invariant -1 <= i < |contents| && p == c[i + 2] && m == mem.Value() && c == Chain()
        invariant forall k :: 0 <= k <= i ==> contents[k] != n
        decreases |contents| - i
      {
        i := i + 1;
        assert c[i + 1] == p;
        if i == |contents| {
          assert false;
        }
        if p == n {
          return;
        }
        LinkAt(m, c, i + 1);
        p := mem.next[p];
      }
      TailLast(m, c, i + 2);
      i := -1;
    }

    /** remove. The list is intact afterwards if and only if the node was in it or its links do no
        harm, as RemoveStaleIff says. */
    method Remove(n: nat)
      requires Valid() && n != tail && n != head && mem.Value().Has(n)
      requires (mem.pre[n] == NULL || mem.Value().Has(mem.pre[n])) &&
               (mem.next[n] == NULL || mem.Value().Has(mem.next[n]))
      modifies this`size, this`contents, mem
      ensures mem.Value() == Unlink(old(mem.Value()), n) && contents == Lists.Remove(old(contents), n) &&
              size == |contents|
      ensures Valid() <==>
        n in old(contents) || old(mem.pre[n]) == NULL || old(mem.next[n]) == NULL ||
        Agrees(old(Chain()), old(mem.pre[n]), old(mem.next[n]))
    {
      hide Linked, Unlink, Agrees;
      ghost var m, c := mem.Value(), Chain();
      var idx := Index(n);
      if idx >= 0 {
        CutContents(m, head, contents, tail, idx);
        size := size - 1;
        contents := contents[..idx] + contents[idx + 1..];
      } else {
        RemoveAbsent(contents, n);
        RemoveStaleIff(m, c, n);
      }
      UnlinkIs(m, n);
      if mem.pre[n] != NULL && mem.next[n] != NULL {
        var p, x := mem.pre[n], mem.next[n];
        mem.next := mem.next[p := x];
        mem.pre := mem.pre[x := p];
      }
      assert mem.Value() == Unlink(m, n);
    }
  }

  lemma {:induction false} UnlinkIs(m: Mem, n: nat)
    requires m.Has(n)
    ensures m.Has(m.pre[n]) && m.Has(m.next[n]) ==>
              Unlink(m, n) == Mem(m.pre[m.next[n] := m.pre[n]], m.next[m.pre[n] := m.next[n]])
    ensures !(m.Has(m.pre[n]) && m.Has(m.next[n])) ==> Unlink(m, n) == m
  {
  }

  /** A node in the middle of a list: its neighbours, and the list without it. */
  lemma {:induction false} CutContents(m: Mem, head: nat, s: seq<nat>, tail: nat, i: nat)
    requires Linked(m, [head] + s + [tail]) && i < |s| && forall j :: 0 <= j < i ==> s[j] != s[i]
    ensures m.Has(s[i]) && m.Has(m.pre[s[i]]) && m.Has(m.next[s[i]]) && m.next[s[i]] != s[i] && m.pre[s[i]] != s[i]
    ensures Linked(Unlink(m, s[i]), [head] + (s[..i] + s[i + 1..]) + [tail])
    ensures Lists.Remove(s, s[i]) == s[..i] + s[i + 1..]
  {
    hide Linked, Unlink;
    var c := [head] + s + [tail];
    assert c[i + 1] == s[i];
    LinkAt(m, c, i);
    LinkAt(m, c, i + 1);
    Cut(m, c, i + 1);
    RemoveAt(s, i);
    assert [head] + (s[..i] + s[i + 1..]) + [tail] == c[..i + 1] + c[i + 2..];
  }

  lemma {:induction false} ChainNoDup(m: Mem, c: seq<nat>)
    requires Linked(m, c)
    ensures NoDup(c)
  {
  }

  /** A node cut out of a chain is not in what is left. */
  lemma {:induction false} NotThere(m: Mem, c: seq<nat>, k: nat, d: seq<nat>)
    requires k < |c| && NoDup(c) && d == c[..k] + c[k + 1..] && Linked(m, d)
    ensures forall i :: 0 <= i < |d| ==> d[i] != c[k] && m.Has(d[i])
  {
    forall i | 0 <= i < |d| ensures d[i] != c[k] && m.Has(d[i]) {
      assert d[i] == c[if i < k then i else i + 1];
    }
  }

  lemma {:induction false} TailLast(m: Mem, c: seq<nat>, j: nat)
    requires Linked(m, c) && j < |c| && c[j] == c[|c| - 1]
    ensures j == |c| - 1
  {
  }

  lemma {:induction false} RemoveAt(l: seq<nat>, i: nat)
    requires i < |l| && forall j :: 0 <= j < i ==> l[j] != l[i]
    ensures Lists.Remove(l, l[i]) == l[..i] + l[i + 1..]
  {
    if i > 0 {
      var t := l[1..];
      assert forall j :: 0 <= j < i - 1 ==> t[j] == l[j + 1];
      RemoveAt(t, i - 1);
      assert l[..i] == [l[0]] + t[..i - 1] && t[i..] == l[i + 1..];
    }
  }
}
