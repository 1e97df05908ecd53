/** Lists without repetitions, as the kernel's linked lists are: no node is linked twice. */
module Lists {
  ghost predicate NoDup(s: seq<nat>) {
    forall i, j :: 0 <= i < j < |s| ==> s[i] != s[j]
  }

  /** The list without one element: `remove` of list.c. */
  function Remove(l: seq<nat>, t: nat): (r: seq<nat>) {
    if l == [] then [] else if l[0] == t then l[1..] else [l[0]] + Remove(l[1..], t)
  }

  /** The list backwards. */
  function Reversed(s: seq<nat>): (r: seq<nat>)
    ensures |r| == |s| && forall i :: 0 <= i < |s| ==> r[i] == s[|s| - 1 - i]
  {
    if s == [] then [] else Reversed(s[1..]) + [s[0]]
  }

  lemma {:induction false} RevMore(s: seq<nat>, t: nat)
    ensures Reversed(s + [t]) == [t] + Reversed(s)
  {
    if s == [] {
      assert (s + [t])[1..] == [];
    } else {
      RevMore(s[1..], t);
      assert (s + [t])[1..] == s[1..] + [t];
    }
  }

  lemma {:induction false} NoDupAppend(a: seq<nat>, b: seq<nat>)
    requires NoDup(a) && NoDup(b) && forall t: nat :: t in a ==> t !in b
    ensures NoDup(a + b)
  {
    forall i, j | 0 <= i < j < |a + b| ensures (a + b)[i] != (a + b)[j] {
      if i < |a| <= j {
        assert a[i] in a && b[j - |a|] in b;
      }
    }
  }

  lemma {:induction false} PopFacts(l: seq<nat>)
    requires l != [] && NoDup(l)
    ensures NoDup(l[1..]) && l[0] !in l[1..] && forall t: nat :: t in l <==> t == l[0] || t in l[1..]
  {
  }

  lemma {:induction false} PushFacts(l: seq<nat>, t: nat)
    requires NoDup(l)
    ensures t !in l ==> NoDup(l + [t])
    ensures forall x: nat :: x in l + [t] <==> x in l || x == t
  {
  }

  lemma {:induction false} RemoveAbsent(l: seq<nat>, t: nat)
    requires t !in l
    ensures Remove(l, t) == l
  {
    if l != [] {
      RemoveAbsent(l[1..], t);
    }
  }

  lemma {:induction false} RemoveFacts(l: seq<nat>, t: nat)
    requires NoDup(l) && t in l
    ensures NoDup(Remove(l, t)) && t !in Remove(l, t)
    ensures forall x: nat :: x in Remove(l, t) <==> x in l && x != t
  {
    if l[0] == t {
      PopFacts(l);
    } else {
      PopFacts(l);
      RemoveFacts(l[1..], t);
      NoDupAppend([l[0]], Remove(l[1..], t));
    }
  }

  /** The list without several elements, unlinked one after the other. */
  function Without(l: seq<nat>, w: seq<nat>): (r: seq<nat>)
    decreases |w|
  {
    if w == [] then l else Without(Remove(l, w[0]), w[1..])
  }

  lemma {:induction false} WithoutLast(l: seq<nat>, w: seq<nat>, t: nat)
    ensures Without(l, w + [t]) == Remove(Without(l, w), t)
    decreases |w|
  {
    if w == [] {
      assert (w + [t])[1..] == [];
    } else {
      WithoutLast(Remove(l, w[0]), w[1..], t);
      assert (w + [t])[1..] == w[1..] + [t];
    }
  }

  lemma {:induction false} WithoutNone(l: seq<nat>)
    ensures Without(l, []) == l
  {
  }

  lemma {:induction false} WithoutFacts(l: seq<nat>, w: seq<nat>)
    requires NoDup(l) && NoDup(w) && forall x: nat :: x in w ==> x in l
    ensures NoDup(Without(l, w)) && |Without(l, w)| == |l| - |w|
    ensures forall x: nat :: x in Without(l, w) <==> x in l && x !in w
    decreases |w|
  {
    if w != [] {
      PopFacts(w);
      RemoveFacts(l, w[0]);
      RemoveLength(l, w[0]);
      WithoutFacts(Remove(l, w[0]), w[1..]);
    }
  }

  lemma {:induction false} RemoveLength(l: seq<nat>, t: nat)
    requires t in l
    ensures |Remove(l, t)| == |l| - 1
  {
    if l[0] != t {
      RemoveLength(l[1..], t);
    }
  }
}
