/** Products and quotients of natural numbers. */
module Arith {
  lemma {:induction false} MulGrows(q: nat, d: nat)
    requires 0 < d
    ensures q <= q * d
  {
    assert q * d == q + q * (d - 1);
    assert q * (d - 1) >= 0;
  }

  lemma {:induction false} MulMono(a: nat, b: nat, c: nat)
    requires a <= b
    ensures a * c <= b * c
  {
    assert b * c == a * c + (b - a) * c;
  }

  lemma {:induction false} MulCancel(a: nat, b: nat, c: nat)
    requires a * c < b * c
    ensures a < b
  {
    if b <= a {
      MulMono(b, a, c);
    }
  }

  lemma {:induction false} QuotientUnique(n: nat, d: nat, q: nat, r: nat)
    requires n == q * d + r && r < d
    ensures n / d == q && n % d == r
  {
    var p, m := n / d, n % d;
    assert n == p * d + m;
    assert p * d < (q + 1) * d && q * d < (p + 1) * d;
    MulCancel(p, q + 1, d);
    MulCancel(q, p + 1, d);
  }

  lemma {:induction false} MulOrder(a: nat, b: nat, c: nat)
    requires a < b
    ensures a * c + c <= b * c
  {
    assert b * c == a * c + (b - a) * c;
    assert (b - a) * c == c + (b - a - 1) * c;
  }

  lemma {:induction false} Exact(k: nat, s: nat)
    requires s > 0
    ensures (k * s) / s == k
  {
    QuotientUnique(k * s, s, k, 0);
  }
}
